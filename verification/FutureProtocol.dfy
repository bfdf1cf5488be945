/**
 The synchronisation protocol of `CassFuture` (scylla-rust-wrapper/src/future.rs).

 A resolvable future is shared by the thread that creates it, by the runtime task that
 resolves it and by any number of client threads that wait for it, wait with a deadline or
 install a callback. Every access to the shared state (the mutex, the callback slot, the join
 handle slot, the write-once result and the condition variable) is one step of this machine,
 and the steps of all threads interleave freely.
 */
module FutureProtocol {

  import opened Prelude

  /** The value the runtime task resolves the future with. */
  datatype FutureResult =
    | Empty
    | QueryResult(id: nat)
    | QueryError(id: nat)
    | Prepared(id: nat)
    | Failed(code: int)

  datatype BoundCallback = BoundCallback(cb: nat, data: int)

  /** What a call hands back to its caller. */
  datatype Outcome =
    | Resolved(r: FutureResult)
    | TimedOut
    | InvalidDuration
    | CallbackSet(cb: BoundCallback)
    | CallbackAlreadySet
    | Panicked

  datatype Owner = Free | OwnedByCreator | OwnedByTask | OwnedBy(client: nat)

  /** The creating thread, after it spawned the task: it stores the join handle under the mutex. */
  datatype CreatorPc = CreatorLock | CreatorStore | CreatorUnlock | CreatorDone

  /** The runtime task. */
  datatype TaskPc =
    | Pending                          // fut.await
    | TaskLock(r: FutureResult)
    | TaskSet(r: FutureResult)         // holds the mutex
    | TaskRead                         // holds the mutex, result stored
    | TaskUnlock(seen: Option<BoundCallback>) // holds the mutex
    | TaskInvoke(cb: BoundCallback)
    | TaskNotify                       // notify_all
    | TaskDone
    | TaskPanicked

  /** A client thread. `timed` tells waited_result_timed from waited_result. */
  datatype Pc =
    | Idle
    | Peek(timed: bool)                // result.get() without the mutex
    | Enter(timed: bool)               // lock()
    | Check(timed: bool)               // holds the mutex: result.get() at the top of the loop
    | Take(timed: bool)                // holds the mutex: join_handle.take()
    | Drive(timed: bool)               // owns the join handle: block_on
    | Claim                            // block_on said the task ended: result.get().unwrap()
    | Relock                           // deadline passed, still owns the handle: lock()
    | GiveBack                         // holds the mutex and the handle
    | Notify                           // holds the mutex: notify_one
    | Test(timed: bool)                // holds the mutex: predicate of wait_while
    | Asleep(timed: bool)              // on the condition variable, mutex released
    | Awake(timed: bool)               // woken, must take the mutex back
    | Leave(out: Outcome)              // holds the mutex: release it and return
    | CbEnter(cb: BoundCallback)       // set_callback: lock()
    | CbTest(cb: BoundCallback)        // holds the mutex: callback.is_some()
    | CbStore(cb: BoundCallback)       // holds the mutex
    | CbPeek(cb: BoundCallback)        // holds the mutex: result.get().is_some()
    | CbUnlock(cb: BoundCallback)      // holds the mutex, must call the callback itself
    | CbInvoke(cb: BoundCallback)
    | Returned(out: Outcome)

  /** The state behind the mutex, the write-once result, and the history of the callbacks
      stored and called. */
  datatype Shared = Shared(
    lock: Owner,
    callback: Option<BoundCallback>,
    joinHandle: bool,
    result: Option<FutureResult>,
    accepted: seq<BoundCallback>,
    invoked: seq<BoundCallback>
  )

  datatype State = State(sh: Shared, creator: CreatorPc, task: TaskPc, clients: seq<Pc>)

  datatype Action =
    | CreatorStep
    | TaskStep(r: FutureResult)        // `r` matters only when the awaited future completes
    | ClientStep(i: nat)
    | WakeOne(i: nat, j: nat)          // client i's notify_one wakes client j
    | Call(i: nat, start: Pc)          // client i starts a call
    | DeadlinePasses(i: nat)
    | BadDeadline(i: nat)              // deadline arithmetic overflows
    | SpuriousWakeup(i: nat)

  predicate Holds(pc: Pc) {
    pc.Check? || pc.Take? || pc.GiveBack? || pc.Notify? || pc.Test? || pc.Leave? ||
    pc.CbTest? || pc.CbStore? || pc.CbPeek? || pc.CbUnlock?
  }

  predicate CreatorHolds(pc: CreatorPc) {
    pc.CreatorStore? || pc.CreatorUnlock?
  }

  predicate TaskHolds(pc: TaskPc) {
    pc.TaskSet? || pc.TaskRead? || pc.TaskUnlock?
  }

  predicate OwnsHandle(pc: Pc) {
    pc.Drive? || pc.Relock? || pc.GiveBack?
  }

  predicate Done(pc: Pc) {
    pc.Idle? || pc.Returned?
  }

  predicate Entry(pc: Pc) {
    pc.Peek? || pc.CbEnter?
  }

  /** The condition under which a waiter keeps sleeping. */
  predicate MustWait(sh: Shared) {
    sh.result.None? && !sh.joinHandle
  }

  predicate NobodyAsleep(s: State) {
    forall j :: 0 <= j < |s.clients| ==> !s.clients[j].Asleep?
  }

  /** A client at `pc` first has to take the mutex. */
  predicate WantsLock(pc: Pc) {
    pc.Enter? || pc.Relock? || pc.Awake? || pc.CbEnter?
  }

  predicate ClientEnabled(s: State, i: nat)
    requires i < |s.clients|
  {
    var pc := s.clients[i];
    && !Done(pc)
    && !pc.Asleep?
    && (WantsLock(pc) ==> s.sh.lock.Free?)
    && (pc.Drive? ==> s.task.TaskDone?)
    && (pc.Notify? ==> NobodyAsleep(s))
  }

  predicate Enabled(s: State, a: Action) {
    match a
    case CreatorStep => !s.creator.CreatorDone? && (s.creator.CreatorLock? ==> s.sh.lock.Free?)
    case TaskStep(_) =>
      !s.task.TaskDone? && !s.task.TaskPanicked? && (s.task.TaskLock? ==> s.sh.lock.Free?)
    case ClientStep(i) => i < |s.clients| && ClientEnabled(s, i)
    case WakeOne(i, j) =>
      i < |s.clients| && j < |s.clients| && s.clients[i].Notify? && s.clients[j].Asleep?
    case Call(i, start) =>
      i < |s.clients| && Done(s.clients[i]) && Entry(start) && s.creator.CreatorDone?
    case DeadlinePasses(i) =>
      i < |s.clients| &&
      (s.clients[i] == Drive(true) || s.clients[i] == Asleep(true) ||
       (s.clients[i] == Test(true) && MustWait(s.sh)))
    case BadDeadline(i) => i < |s.clients| && s.clients[i] == Enter(true) && s.sh.lock.Free?
    case SpuriousWakeup(i) => i < |s.clients| && s.clients[i].Asleep?
  }

  /** Where the next step of a client at `pc` takes it. */
  function NextPc(sh: Shared, pc: Pc): Pc {
    match pc
    case Peek(timed) => if sh.result.Some? then Returned(Resolved(sh.result.value)) else Enter(timed)
    case Enter(timed) => Check(timed)
    case Check(timed) => if sh.result.Some? then Leave(Resolved(sh.result.value)) else Take(timed)
    case Take(timed) => if sh.joinHandle then Drive(timed) else Test(timed)
    case Drive(_) => Claim
    case Claim => Returned(if sh.result.Some? then Resolved(sh.result.value) else Panicked)
    case Relock => GiveBack
    case GiveBack => Notify
    case Notify => Leave(TimedOut)
    case Test(timed) => if MustWait(sh) then Asleep(timed) else Check(timed)
    case Awake(timed) => Test(timed)
    case Leave(out) => Returned(out)
    case CbEnter(cb) => CbTest(cb)
    case CbTest(cb) => if sh.callback.Some? then Leave(CallbackAlreadySet) else CbStore(cb)
    case CbStore(cb) => CbPeek(cb)
    case CbPeek(cb) => if sh.result.Some? then CbUnlock(cb) else Leave(CallbackSet(cb))
    case CbUnlock(cb) => CbInvoke(cb)
    case CbInvoke(cb) => Returned(CallbackSet(cb))
    case _ => pc
  }

  /** What the next step of client `i`, at `pc`, does to the shared state. */
  function NextShared(sh: Shared, pc: Pc, i: nat): Shared {
    match pc
    case Take(_) => if sh.joinHandle then sh.(joinHandle := false, lock := Free) else sh
    case GiveBack => sh.(joinHandle := true)
    case Test(_) => if MustWait(sh) then sh.(lock := Free) else sh
    case Leave(_) => sh.(lock := Free)
    case CbStore(cb) => sh.(callback := Some(cb), accepted := sh.accepted + [cb])
    case CbUnlock(_) => sh.(lock := Free)
    case CbInvoke(cb) => sh.(invoked := sh.invoked + [cb])
    case _ => if WantsLock(pc) then sh.(lock := OwnedBy(i)) else sh
  }

  function At(s: State, i: nat, pc: Pc): State
    requires i < |s.clients|
  {
    s.(clients := s.clients[i := pc])
  }

  function TaskNext(s: State, r: FutureResult): State
    requires Enabled(s, TaskStep(r))
  {
    match s.task
    case Pending => s.(task := TaskLock(r))
    case TaskLock(v) => s.(task := TaskSet(v), sh := s.sh.(lock := OwnedByTask))
    case TaskSet(v) =>
      if s.sh.result.Some? then s.(task := TaskPanicked)
      else s.(task := TaskRead, sh := s.sh.(result := Some(v)))
    case TaskRead => s.(task := TaskUnlock(s.sh.callback))
    case TaskUnlock(seen) =>
      s.(task := if seen.Some? then TaskInvoke(seen.value) else TaskNotify, sh := s.sh.(lock := Free))
    case TaskInvoke(cb) => s.(task := TaskNotify, sh := s.sh.(invoked := s.sh.invoked + [cb]))
    case TaskNotify => s.(task := TaskDone, clients := WakeAll(s.clients))
  }

  /** notify_all: every client on the condition variable becomes runnable. */
  function WakeAll(cs: seq<Pc>): (r: seq<Pc>)
    ensures |r| == |cs|
    ensures forall j :: 0 <= j < |cs| ==> r[j] == Woken(cs[j])
  {
    if cs == [] then [] else [Woken(cs[0])] + WakeAll(cs[1..])
  }

  function Woken(pc: Pc): Pc {
    if pc.Asleep? then Awake(pc.timed) else pc
  }

  function CreatorNext(s: State): State
    requires Enabled(s, CreatorStep)
  {
    match s.creator
    case CreatorLock => s.(creator := CreatorStore, sh := s.sh.(lock := OwnedByCreator))
    case CreatorStore => s.(creator := CreatorUnlock, sh := s.sh.(joinHandle := true))
    case CreatorUnlock => s.(creator := CreatorDone, sh := s.sh.(lock := Free))
  }

  function Do(s: State, a: Action): State
    requires Enabled(s, a)
  {
    match a
    case CreatorStep => CreatorNext(s)
    case TaskStep(r) => TaskNext(s, r)
    case ClientStep(i) =>
      At(s, i, NextPc(s.sh, s.clients[i])).(sh := NextShared(s.sh, s.clients[i], i))
    case WakeOne(i, j) => At(At(s, j, Woken(s.clients[j])), i, Leave(TimedOut))
    case Call(i, start) => At(s, i, start)
    case DeadlinePasses(i) =>
      At(s, i, if s.clients[i].Drive? then Relock
               else if s.clients[i].Asleep? then Awake(true)
               else Leave(TimedOut))
    case BadDeadline(i) => At(s, i, Leave(InvalidDuration)).(sh := s.sh.(lock := OwnedBy(i)))
    case SpuriousWakeup(i) => At(s, i, Woken(s.clients[i]))
  }

  /** A future shared by `n` client threads, right after its task was spawned. */
  function Init(n: nat): State {
    State(Shared(Free, None, false, None, [], []), CreatorLock, Pending, seq(n, _ => Idle))
  }

  /** `t` follows from `s` by performing `acts` in order. */
  predicate Reaches(s: State, acts: seq<Action>, t: State)
    decreases |acts|
  {
    if acts == [] then s == t
    else Enabled(s, acts[0]) && Reaches(Do(s, acts[0]), acts[1..], t)
  }

  // ----- Invariants

  predicate Resolving(t: TaskPc) {
    t.TaskRead? || t.TaskUnlock? || t.TaskInvoke? || t.TaskNotify?
  }

  /** The mutex is held by exactly the thread whose program position says so. */
  predicate LockInv(s: State) {
    && (s.sh.lock.OwnedByCreator? <==> CreatorHolds(s.creator))
    && (s.sh.lock.OwnedByTask? <==> TaskHolds(s.task))
    && (forall i :: 0 <= i < |s.clients| ==> (s.sh.lock == OwnedBy(i) <==> Holds(s.clients[i])))
    && (s.sh.lock.OwnedBy? ==> s.sh.lock.client < |s.clients|)
  }

  ghost predicate SomeOwner(s: State) {
    exists i :: 0 <= i < |s.clients| && OwnsHandle(s.clients[i])
  }

  /** There is one join handle: in its slot, with one client, or consumed once the task ended. */
  ghost predicate HandleInv(s: State) {
    && (forall i, j | 0 <= i < j < |s.clients| ::
          !(OwnsHandle(s.clients[i]) && OwnsHandle(s.clients[j])))
    && (forall i :: 0 <= i < |s.clients| && OwnsHandle(s.clients[i]) ==> !s.sh.joinHandle)
    && (!s.creator.CreatorDone? ==> forall i :: 0 <= i < |s.clients| ==> s.clients[i].Idle?)
    && (s.creator.CreatorLock? || s.creator.CreatorStore? ==> !s.sh.joinHandle)
    && (s.creator.CreatorUnlock? ==> s.sh.joinHandle)
    && (s.creator.CreatorDone? && !s.sh.joinHandle && !SomeOwner(s) ==> s.task.TaskDone?)
  }

  predicate OutcomeOk(sh: Shared, out: Outcome) {
    match out
    case Resolved(r) => sh.result == Some(r)
    case CallbackSet(cb) => sh.callback == Some(cb)
    case CallbackAlreadySet => sh.callback.Some?
    case Panicked => false
    case _ => true
  }

  /** What a client at `pc` knows about the shared slots. */
  predicate Knows(sh: Shared, ended: bool, pc: Pc) {
    match pc
    case Take(_) => sh.result.None?
    case Claim => ended
    case Leave(out) => OutcomeOk(sh, out)
    case Returned(out) => OutcomeOk(sh, out)
    case CbStore(_) => sh.callback.None?
    case CbPeek(cb) => sh.callback == Some(cb)
    case CbUnlock(cb) => sh.callback == Some(cb) && sh.result.Some?
    case CbInvoke(cb) => sh.callback == Some(cb) && sh.result.Some?
    case _ => true
  }

  predicate TaskKnows(sh: Shared, t: TaskPc) {
    && !t.TaskPanicked?
    && (sh.result.Some? <==> Resolving(t) || t.TaskDone?)
    && (t.TaskUnlock? && t.seen.Some? ==> sh.callback == t.seen)
    && (t.TaskInvoke? ==> sh.callback == Some(t.cb))
  }

  predicate ResultInv(s: State) {
    && TaskKnows(s.sh, s.task)
    && forall i :: 0 <= i < |s.clients| ==> Knows(s.sh, s.task.TaskDone?, s.clients[i])
  }

  /** The task will still look at the callback slot, or has found a callback it must call. */
  predicate TaskOwes(t: TaskPc) {
    t.Pending? || t.TaskLock? || t.TaskSet? || t.TaskRead? || t.TaskInvoke? ||
    (t.TaskUnlock? && t.seen.Some?)
  }

  predicate Owes(sh: Shared, pc: Pc) {
    pc.CbUnlock? || pc.CbInvoke? || (pc.CbPeek? && sh.result.Some?)
  }

  ghost predicate SomeClientOwes(s: State) {
    exists i :: 0 <= i < |s.clients| && Owes(s.sh, s.clients[i])
  }

  /** Exactly one party owes the call of a stored callback until it has been called. */
  ghost predicate CallbackInv(s: State) {
    && s.sh.accepted == (if s.sh.callback.Some? then [s.sh.callback.value] else [])
    && (s.sh.invoked == [] || s.sh.invoked == s.sh.accepted)
    && (TaskOwes(s.task) ==> s.sh.invoked == [] && !SomeClientOwes(s))
    && (SomeClientOwes(s) ==> s.sh.invoked == [])
    && (forall i, j | 0 <= i < j < |s.clients| :: !(Owes(s.sh, s.clients[i]) && Owes(s.sh, s.clients[j])))
    && (s.sh.callback.Some? && s.sh.invoked == [] ==> TaskOwes(s.task) || SomeClientOwes(s))
  }

  /** A client that is awake inside the wait loop and will find the stored handle, or is about
      to wake another one. */
  predicate Chases(pc: Pc) {
    pc.Awake? || pc.Test? || pc.Check? || pc.Take? || pc.Notify?
  }

  ghost predicate SomeoneChases(s: State) {
    exists i :: 0 <= i < |s.clients| && Chases(s.clients[i])
  }

  /** No lost wake-up: whoever sleeps has a waker. */
  ghost predicate SleepInv(s: State) {
    && (s.sh.result.Some? && !Resolving(s.task) ==> NobodyAsleep(s))
    && (s.sh.result.None? && s.sh.joinHandle && !NobodyAsleep(s) ==> SomeoneChases(s))
  }

  ghost predicate Inv(s: State) {
    LockInv(s) && HandleInv(s) && ResultInv(s) && CallbackInv(s) && SleepInv(s)
  }

  lemma InitInv(n: nat)
    ensures Inv(Init(n))
  {
  }

  // ----- Every action keeps the invariants

  /** `t` is `s` after client `i` moved, with whatever became of the shared state. */
  predicate Moved(s: State, t: State, i: nat) {
    && i < |s.clients| == |t.clients|
    && t.clients == s.clients[i := t.clients[i]]
    && t.creator == s.creator && t.task == s.task
  }

  lemma LockAt(s: State, t: State, i: nat)
    requires LockInv(s) && Moved(s, t, i)
    requires t.sh.lock == s.sh.lock || (s.sh.lock.Free? && t.sh.lock == OwnedBy(i)) ||
             (s.sh.lock == OwnedBy(i) && t.sh.lock.Free?)
    requires t.sh.lock == OwnedBy(i) <==> Holds(t.clients[i])
    ensures LockInv(t)
  {
  }

  lemma LockKeptByClient(s: State, i: nat)
    requires LockInv(s) && Enabled(s, ClientStep(i))
    ensures LockInv(Do(s, ClientStep(i)))
  {
    LockAt(s, Do(s, ClientStep(i)), i);
  }

  lemma LockKeptByTask(s: State, r: FutureResult)
    requires LockInv(s) && TaskKnows(s.sh, s.task) && Enabled(s, TaskStep(r))
    ensures LockInv(Do(s, TaskStep(r)))
  {
    var t := TaskNext(s, r);
    assert forall i | 0 <= i < |s.clients| :: Holds(t.clients[i]) <==> Holds(s.clients[i]);
  }

  lemma LockKeptByWaker(s: State, i: nat, j: nat)
    requires LockInv(s) && Enabled(s, WakeOne(i, j))
    ensures LockInv(Do(s, WakeOne(i, j)))
  {
    var mid := At(s, j, Woken(s.clients[j]));
    LockAt(s, mid, j);
    LockAt(mid, Do(s, WakeOne(i, j)), i);
  }

  lemma LockKept(s: State, a: Action)
    requires LockInv(s) && TaskKnows(s.sh, s.task) && Enabled(s, a)
    ensures LockInv(Do(s, a))
  {
    match a {
      case CreatorStep =>
      case TaskStep(r) => LockKeptByTask(s, r);
      case ClientStep(i) => LockKeptByClient(s, i);
      case WakeOne(i, j) => LockKeptByWaker(s, i, j);
      case _ => LockAt(s, Do(s, a), a.i);
    }
  }

  lemma HandleAt(s: State, t: State, i: nat)
    requires HandleInv(s) && Moved(s, t, i) && s.creator.CreatorDone?
    requires OwnsHandle(s.clients[i]) ==>
               (OwnsHandle(t.clients[i]) && !t.sh.joinHandle) ||
               (!OwnsHandle(t.clients[i]) && (t.sh.joinHandle || s.task.TaskDone?))
    requires !OwnsHandle(s.clients[i]) ==>
               (OwnsHandle(t.clients[i]) && s.sh.joinHandle && !t.sh.joinHandle) ||
               (!OwnsHandle(t.clients[i]) && t.sh.joinHandle == s.sh.joinHandle)
    ensures HandleInv(t)
  {
    if OwnsHandle(t.clients[i]) {
    } else if SomeOwner(s) {
      var k :| 0 <= k < |s.clients| && OwnsHandle(s.clients[k]);
      assert k != i ==> OwnsHandle(t.clients[k]);
    }
  }

  lemma HandleKeptByClient(s: State, i: nat)
    requires HandleInv(s) && Enabled(s, ClientStep(i))
    ensures HandleInv(Do(s, ClientStep(i)))
  {
    assert s.creator.CreatorDone?;
    HandleAt(s, Do(s, ClientStep(i)), i);
  }

  lemma HandleUntouched(s: State, t: State)
    requires HandleInv(s) && |t.clients| == |s.clients| && t.creator == s.creator
    requires t.sh.joinHandle == s.sh.joinHandle && (s.task.TaskDone? ==> t.task.TaskDone?)
    requires forall k :: 0 <= k < |s.clients| ==> (OwnsHandle(t.clients[k]) <==> OwnsHandle(s.clients[k]))
    requires !s.creator.CreatorDone? ==> t.clients == s.clients
    ensures HandleInv(t)
  {
    if SomeOwner(s) {
      var k :| 0 <= k < |s.clients| && OwnsHandle(s.clients[k]);
      assert OwnsHandle(t.clients[k]);
    }
  }

  lemma HandleKept(s: State, a: Action)
    requires HandleInv(s) && Enabled(s, a)
    ensures HandleInv(Do(s, a))
  {
    if a.ClientStep? {
      HandleKeptByClient(s, a.i);
    } else if !a.CreatorStep? {
      assert a.TaskStep? && !s.creator.CreatorDone? ==> Do(s, a).clients == s.clients;
      HandleUntouched(s, Do(s, a));
    }
  }

  /** A client's own step keeps what it knows. */
  lemma KnowsNext(sh: Shared, ended: bool, pc: Pc, i: nat)
    requires Knows(sh, ended, pc) && (pc.Drive? ==> ended) && (ended ==> sh.result.Some?)
    ensures Knows(NextShared(sh, pc, i), ended, NextPc(sh, pc))
  {
  }

  /** A client's step keeps what the others know, because it writes the slots under the mutex. */
  lemma KnowsOther(sh: Shared, ended: bool, pc: Pc, i: nat, other: Pc)
    requires Knows(sh, ended, pc) && Knows(sh, ended, other)
    requires !(Holds(pc) && Holds(other))
    ensures Knows(NextShared(sh, pc, i), ended, other)
  {
  }

  lemma ResultKeptByClient(s: State, i: nat)
    requires LockInv(s) && ResultInv(s) && Enabled(s, ClientStep(i))
    ensures ResultInv(Do(s, ClientStep(i)))
  {
    var t := Do(s, ClientStep(i));
    var ended := s.task.TaskDone?;
    forall k | 0 <= k < |s.clients|
      ensures Knows(t.sh, ended, t.clients[k])
    {
      if k == i {
        KnowsNext(s.sh, ended, s.clients[i], i);
      } else {
        KnowsOther(s.sh, ended, s.clients[i], i, s.clients[k]);
      }
    }
  }

  lemma ResultKept(s: State, a: Action)
    requires LockInv(s) && ResultInv(s) && Enabled(s, a)
    ensures ResultInv(Do(s, a))
  {
    var t := Do(s, a);
    if a.ClientStep? {
      ResultKeptByClient(s, a.i);
    } else {
      forall k | 0 <= k < |s.clients|
        ensures Knows(t.sh, t.task.TaskDone?, t.clients[k])
      {
        assert Knows(s.sh, s.task.TaskDone?, s.clients[k]);
      }
    }
  }

  lemma DebtAt(s: State, t: State, i: nat)
    requires CallbackInv(s) && Moved(s, t, i) && t.sh.result == s.sh.result
    requires t.sh.callback == s.sh.callback && t.sh.accepted == s.sh.accepted
    requires Owes(t.sh, t.clients[i]) ==> Owes(s.sh, s.clients[i]) && t.sh.invoked == s.sh.invoked
    requires !Owes(t.sh, t.clients[i]) && Owes(s.sh, s.clients[i]) ==>
               s.sh.callback.Some? && t.sh.invoked == [s.sh.callback.value]
    requires !Owes(s.sh, s.clients[i]) ==> t.sh.invoked == s.sh.invoked
    ensures CallbackInv(t)
  {
    if SomeClientOwes(s) {
      var k :| 0 <= k < |s.clients| && Owes(s.sh, s.clients[k]);
      assert Owes(t.sh, t.clients[k]) || k == i;
    }
    if SomeClientOwes(t) {
      var k :| 0 <= k < |t.clients| && Owes(t.sh, t.clients[k]);
      assert Owes(s.sh, s.clients[k]);
    }
  }

  lemma CallbackKeptByClient(s: State, i: nat)
    requires LockInv(s) && ResultInv(s) && CallbackInv(s) && Enabled(s, ClientStep(i))
    ensures CallbackInv(Do(s, ClientStep(i)))
  {
    var t := Do(s, ClientStep(i));
    assert Knows(s.sh, s.task.TaskDone?, s.clients[i]);
    if s.clients[i].CbStore? {
      forall k | 0 <= k < |s.clients|
        ensures !Owes(s.sh, s.clients[k])
      {
        assert Knows(s.sh, s.task.TaskDone?, s.clients[k]);
      }
      assert s.sh.result.Some? ==> Owes(t.sh, t.clients[i]);
    } else {
      assert Owes(s.sh, s.clients[i]) ==> SomeClientOwes(s);
      DebtAt(s, t, i);
    }
  }

  lemma CallbackKeptByTask(s: State, r: FutureResult)
    requires LockInv(s) && ResultInv(s) && CallbackInv(s) && Enabled(s, TaskStep(r))
    ensures CallbackInv(Do(s, TaskStep(r)))
  {
    var t := Do(s, TaskStep(r));
    forall k | 0 <= k < |s.clients|
      ensures Owes(t.sh, t.clients[k]) <==> Owes(s.sh, s.clients[k])
    {
    }
    assert SomeClientOwes(t) <==> SomeClientOwes(s);
  }

  lemma SameOwers(s: State, a: Action)
    requires Enabled(s, a) && !a.ClientStep? && !a.TaskStep?
    ensures var t := Do(s, a);
            && |t.clients| == |s.clients| && t.task == s.task && t.sh.callback == s.sh.callback
            && t.sh.accepted == s.sh.accepted && t.sh.invoked == s.sh.invoked
            && forall k | 0 <= k < |s.clients| :: Owes(t.sh, t.clients[k]) <==> Owes(s.sh, s.clients[k])
  {
  }

  lemma CallbackKept(s: State, a: Action)
    requires LockInv(s) && ResultInv(s) && CallbackInv(s) && Enabled(s, a)
    ensures CallbackInv(Do(s, a))
  {
    if a.ClientStep? {
      CallbackKeptByClient(s, a.i);
    } else if a.TaskStep? {
      CallbackKeptByTask(s, a.r);
    } else {
      SameOwers(s, a);
      assert SomeClientOwes(Do(s, a)) <==> SomeClientOwes(s);
    }
  }

  lemma SleepAt(s: State, t: State, i: nat)
    requires SleepInv(s) && Moved(s, t, i) && t.sh.result == s.sh.result
    requires t.clients[i].Asleep? ==> MustWait(s.sh) && MustWait(t.sh)
    requires t.sh.joinHandle && Chases(s.clients[i]) && !Chases(t.clients[i]) ==>
               NobodyAsleep(s) || s.sh.result.Some?
    requires t.sh.joinHandle && !s.sh.joinHandle ==> Chases(t.clients[i])
    ensures SleepInv(t)
  {
    if SomeoneChases(s) {
      var k :| 0 <= k < |s.clients| && Chases(s.clients[k]);
      assert k != i ==> Chases(t.clients[k]);
    }
    assert Chases(t.clients[i]) ==> SomeoneChases(t);
    assert !t.clients[i].Asleep? && NobodyAsleep(s) ==> NobodyAsleep(t);
  }

  lemma SleepKeptByOthers(s: State, a: Action)
    requires HandleInv(s) && ResultInv(s) && SleepInv(s) && Enabled(s, a) && (a.CreatorStep? || a.TaskStep?)
    ensures SleepInv(Do(s, a))
  {
    if SomeoneChases(s) {
      var k :| 0 <= k < |s.clients| && Chases(s.clients[k]);
      assert Chases(Do(s, a).clients[k]);
    }
  }

  lemma SleepKeptByClient(s: State, a: Action)
    requires HandleInv(s) && ResultInv(s) && SleepInv(s) && Enabled(s, a)
    requires a.ClientStep? || a.Call? || a.DeadlinePasses? || a.BadDeadline? || a.SpuriousWakeup?
    ensures SleepInv(Do(s, a))
  {
    assert Knows(s.sh, s.task.TaskDone?, s.clients[a.i]);
    SleepAt(s, Do(s, a), a.i);
  }

  lemma SleepKept(s: State, a: Action)
    requires HandleInv(s) && ResultInv(s) && SleepInv(s) && Enabled(s, a)
    ensures SleepInv(Do(s, a))
  {
    var t := Do(s, a);
    if a.CreatorStep? || a.TaskStep? {
      SleepKeptByOthers(s, a);
    } else if a.WakeOne? {
      assert Chases(t.clients[a.j]);
      assert !NobodyAsleep(s);
    } else {
      SleepKeptByClient(s, a);
    }
  }

  lemma InvKept(s: State, a: Action)
    requires Inv(s) && Enabled(s, a)
    ensures Inv(Do(s, a))
  {
    LockKept(s, a);
    HandleKept(s, a);
    ResultKept(s, a);
    CallbackKept(s, a);
    SleepKept(s, a);
  }

  lemma {:induction false} InvReached(s: State, acts: seq<Action>, t: State)
    requires Inv(s) && Reaches(s, acts, t)
    ensures Inv(t)
    decreases |acts|
  {
    if acts != [] {
      InvKept(s, acts[0]);
      InvReached(Do(s, acts[0]), acts[1..], t);
    }
  }

  // ----- Safety of every run

  /** Callback discipline of one state: at most one callback is ever stored, it is called at most
      once, never before the result is available, and never forgotten: once the future is resolved
      and nobody is in the middle of a call, a stored callback has been called. */
  ghost predicate CallbackSafe(s: State) {
    && |s.sh.accepted| <= 1 && |s.sh.invoked| <= 1
    && (s.sh.invoked != [] ==> s.sh.invoked == s.sh.accepted && s.sh.result.Some?)
    && (s.task.TaskDone? && (forall i :: 0 <= i < |s.clients| ==> Done(s.clients[i])) ==>
          s.sh.invoked == s.sh.accepted)
  }

  /** Every call that returned told the truth, and nothing panicked: `result.set(..).expect` is
      reached once and `result.get().unwrap()` never on an empty slot. */
  predicate ReturnsSafe(s: State) {
    && !s.task.TaskPanicked?
    && forall i :: 0 <= i < |s.clients| && s.clients[i].Returned? ==> OutcomeOk(s.sh, s.clients[i].out)
  }

  /** One thread at a time is inside the mutex. */
  predicate MutexSafe(s: State) {
    && !(CreatorHolds(s.creator) && TaskHolds(s.task))
    && (forall i | 0 <= i < |s.clients| && Holds(s.clients[i]) :: !CreatorHolds(s.creator) && !TaskHolds(s.task))
    && (forall i, j | 0 <= i < j < |s.clients| :: !(Holds(s.clients[i]) && Holds(s.clients[j])))
  }

  /** The join handle is in its slot or with one client. */
  predicate HandleSafe(s: State) {
    && (forall i | 0 <= i < |s.clients| && OwnsHandle(s.clients[i]) :: !s.sh.joinHandle)
    && (forall i, j | 0 <= i < j < |s.clients| :: !(OwnsHandle(s.clients[i]) && OwnsHandle(s.clients[j])))
  }

  /** What the awaited future completes with in the course of the run, if it does. */
  function Completion(s: State, acts: seq<Action>): Option<FutureResult>
    decreases |acts|
  {
    if acts == [] || !Enabled(s, acts[0]) then None
    else if s.task.Pending? && acts[0].TaskStep? then Some(acts[0].r)
    else Completion(Do(s, acts[0]), acts[1..])
  }

  /** A result the task has been given and has not stored yet. */
  function InHand(task: TaskPc): Option<FutureResult> {
    match task
    case TaskLock(r) => Some(r)
    case TaskSet(r) => Some(r)
    case _ => None
  }

  lemma StepKeepsResult(s: State, a: Action)
    requires Enabled(s, a) && !(s.task.Pending? && a.TaskStep?)
    ensures var t := Do(s, a);
            && (s.sh.result.Some? ==> t.sh.result == s.sh.result)
            && (s.sh.result.None? ==> t.sh.result == None || t.sh.result == InHand(s.task))
            && (s.sh.result.None? && t.sh.result.None? ==> InHand(t.task) == InHand(s.task))
            && (t.task.Pending? <==> s.task.Pending?)
  {
  }

  /** The result slot never holds anything but what the awaited future completed with. */
  lemma {:induction false} ResultIsCompletion(s: State, acts: seq<Action>, t: State)
    requires Reaches(s, acts, t)
    ensures t.sh.result.Some? ==>
              t.sh.result == (if s.sh.result.Some? then s.sh.result
                              else if InHand(s.task).Some? then InHand(s.task)
                              else Completion(s, acts))
    decreases |acts|
  {
    if acts != [] {
      ResultIsCompletion(Do(s, acts[0]), acts[1..], t);
      if !(s.task.Pending? && acts[0].TaskStep?) {
        StepKeepsResult(s, acts[0]);
      }
    }
  }

  /** In every interleaving of the creator, the task and any number of clients. */
  lemma FutureIsSafe(n: nat, acts: seq<Action>, t: State)
    requires Reaches(Init(n), acts, t)
    ensures CallbackSafe(t) && ReturnsSafe(t)
    ensures t.sh.result.Some? ==> t.sh.result == Completion(Init(n), acts)
    ensures forall i | 0 <= i < |t.clients| && t.clients[i].Returned? && t.clients[i].out.Resolved? ::
              Completion(Init(n), acts) == Some(t.clients[i].out.r)
    ensures MutexSafe(t) && HandleSafe(t)
  {
    InitInv(n);
    InvReached(Init(n), acts, t);
    ResultIsCompletion(Init(n), acts, t);
    forall i | 0 <= i < |t.clients|
      ensures Knows(t.sh, t.task.TaskDone?, t.clients[i])
    {
    }
  }

  lemma StepKeepsSlots(s: State, a: Action)
    requires Inv(s) && Enabled(s, a)
    ensures s.sh.result.Some? ==> Do(s, a).sh.result == s.sh.result
    ensures s.sh.accepted <= Do(s, a).sh.accepted
    ensures s.sh.invoked <= Do(s, a).sh.invoked
  {
  }

  lemma {:induction false} HistoriesGrow(s: State, acts: seq<Action>, t: State)
    requires Inv(s) && Reaches(s, acts, t)
    ensures s.sh.result.Some? ==> t.sh.result == s.sh.result
    ensures s.sh.accepted <= t.sh.accepted && s.sh.invoked <= t.sh.invoked
    decreases |acts|
  {
    if acts != [] {
      StepKeepsSlots(s, acts[0]);
      InvKept(s, acts[0]);
      HistoriesGrow(Do(s, acts[0]), acts[1..], t);
    }
  }

  lemma CallbackFollows(s: State, t: State)
    requires CallbackInv(s) && CallbackInv(t) && s.sh.accepted <= t.sh.accepted
    ensures s.sh.callback.Some? ==> t.sh.callback == s.sh.callback
  {
    if s.sh.callback.Some? {
      assert s.sh.accepted[0] == t.sh.accepted[0];
    }
  }

  /** The result never changes once set, and the histories only grow, along every run. */
  lemma SlotsAreWriteOnce(s: State, acts: seq<Action>, t: State)
    requires Inv(s) && Reaches(s, acts, t)
    ensures s.sh.result.Some? ==> t.sh.result == s.sh.result
    ensures s.sh.callback.Some? ==> t.sh.callback == s.sh.callback
    ensures s.sh.accepted <= t.sh.accepted && s.sh.invoked <= t.sh.invoked
  {
    InvReached(s, acts, t);
    HistoriesGrow(s, acts, t);
    CallbackFollows(s, t);
  }
}
