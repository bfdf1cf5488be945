/**
 Progress of the `CassFuture` protocol: no lost wake-up, no deadlock, and a bound on how long a
 waiter can be kept waiting.

 The runtime may be tokio's current-thread executor, where the task advances only while some
 client drives it in `block_on`. A step is helpful when it needs no luck: no deadline passes, no
 wake-up is spurious, no new call starts, and the awaited future completes only while driven.
 */
module FutureProgress {
  import opened Prelude
  import opened FutureProtocol

  ghost predicate SomeoneDrives(s: State) {
    exists i :: 0 <= i < |s.clients| && s.clients[i].Drive?
  }

  ghost predicate Helpful(s: State, a: Action) {
    && Enabled(s, a)
    && (a.CreatorStep? || a.ClientStep? || a.WakeOne? || a.TaskStep?)
    && (a.TaskStep? && s.task.Pending? ==> SomeoneDrives(s))
  }

  ghost predicate AllDone(s: State) {
    forall i :: 0 <= i < |s.clients| ==> Done(s.clients[i])
  }

  // ----- A helpful step exists as long as some call is unfinished

  lemma HolderCanMove(s: State) returns (a: Action)
    requires Inv(s) && !s.sh.lock.Free?
    ensures Helpful(s, a)
  {
    match s.sh.lock {
      case OwnedByCreator => a := CreatorStep;
      case OwnedByTask => a := TaskStep(Empty);
      case OwnedBy(c) =>
        if s.clients[c].Notify? && !NobodyAsleep(s) {
          var j :| 0 <= j < |s.clients| && s.clients[j].Asleep?;
          a := WakeOne(c, j);
        } else {
          a := ClientStep(c);
        }
    }
  }

  /** Whoever sleeps while the mutex is free and the task is idle can be reached by somebody. */
  lemma SleeperHasWaker(s: State) returns (a: Action)
    requires Inv(s) && s.sh.lock.Free? && s.creator.CreatorDone? && s.task.Pending? && !NobodyAsleep(s)
    ensures Helpful(s, a)
  {
    if s.sh.joinHandle {
      var k :| 0 <= k < |s.clients| && Chases(s.clients[k]);
      a := ClientStep(k);
    } else {
      var k :| 0 <= k < |s.clients| && OwnsHandle(s.clients[k]);
      a := if s.clients[k].Drive? then TaskStep(Empty) else ClientStep(k);
    }
  }

  lemma SomeoneCanMove(s: State, i: nat) returns (a: Action)
    requires Inv(s) && i < |s.clients| && !Done(s.clients[i])
    ensures Helpful(s, a)
  {
    if !s.sh.lock.Free? {
      a := HolderCanMove(s);
    } else if !s.creator.CreatorDone? {
      a := CreatorStep;
    } else if !s.task.Pending? && !s.task.TaskDone? {
      a := TaskStep(Empty);
    } else if s.clients[i].Asleep? {
      assert !NobodyAsleep(s);
      a := SleeperHasWaker(s);
    } else if s.clients[i].Drive? && s.task.Pending? {
      a := TaskStep(Empty);
    } else {
      a := ClientStep(i);
    }
  }

  // ----- Every helpful step makes measurable progress

  function Weight(wait: bool, pc: Pc): nat {
    match pc
    case Relock => 12
    case GiveBack => 11
    case Notify => 10
    case Peek(_) => 8
    case Awake(_) => 8
    case Test(_) => if wait then 2 else 7
    case Enter(_) => 7
    case Check(_) => 6
    case CbEnter(_) => 6
    case Take(_) => 5
    case CbTest(_) => 5
    case Drive(_) => 4
    case CbStore(_) => 4
    case Claim => 3
    case CbPeek(_) => 3
    case CbUnlock(_) => 2
    case CbInvoke(_) => 1
    case Asleep(_) => 1
    case Leave(_) => 1
    case Idle => 0
    case Returned(_) => 0
  }

  function Sum(wait: bool, cs: seq<Pc>): nat {
    if cs == [] then 0 else Weight(wait, cs[0]) + Sum(wait, cs[1..])
  }

  function TaskLeft(t: TaskPc): nat {
    match t
    case Pending => 7
    case TaskLock(_) => 6
    case TaskSet(_) => 5
    case TaskRead => 4
    case TaskUnlock(_) => 3
    case TaskInvoke(_) => 2
    case TaskNotify => 1
    case _ => 0
  }

  function CreatorLeft(c: CreatorPc): nat {
    match c
    case CreatorLock => 3
    case CreatorStore => 2
    case CreatorUnlock => 1
    case CreatorDone => 0
  }

  /** An upper bound on the number of helpful steps left. */
  function Rank(s: State): nat {
    CreatorLeft(s.creator) + TaskLeft(s.task) * (7 * |s.clients| + 1) + Sum(MustWait(s.sh), s.clients)
  }

  lemma {:induction false} SumAt(wait: bool, cs: seq<Pc>, i: nat, pc: Pc)
    requires i < |cs|
    ensures Sum(wait, cs[i := pc]) + Weight(wait, cs[i]) == Sum(wait, cs) + Weight(wait, pc)
  {
    if i > 0 {
      assert cs[i := pc][1..] == cs[1..][i - 1 := pc];
      SumAt(wait, cs[1..], i - 1, pc);
    } else {
      assert cs[i := pc][1..] == cs[1..];
    }
  }

  /** The weights depend on the wait condition only for a client that evaluates it. */
  lemma {:induction false} SumStable(wait: bool, wait': bool, cs: seq<Pc>)
    requires wait == wait' || forall k :: 0 <= k < |cs| ==> !cs[k].Test?
    ensures Sum(wait, cs) == Sum(wait', cs)
  {
    if cs != [] {
      SumStable(wait, wait', cs[1..]);
    }
  }

  lemma {:induction false} SumWokenAll(wait: bool, cs: seq<Pc>)
    ensures Sum(wait, WakeAll(cs)) <= Sum(wait, cs) + 7 * |cs|
  {
    if cs != [] {
      assert WakeAll(cs)[1..] == WakeAll(cs[1..]);
      SumWokenAll(wait, cs[1..]);
    }
  }

  lemma ClientWeightDrops(sh: Shared, pc: Pc, i: nat)
    requires !Done(pc) && !pc.Asleep? && (pc.Take? ==> sh.result.None?)
    ensures Weight(MustWait(NextShared(sh, pc, i)), NextPc(sh, pc)) < Weight(MustWait(sh), pc)
  {
  }

  lemma ClientStepRanks(s: State, i: nat)
    requires Inv(s) && Enabled(s, ClientStep(i))
    ensures Rank(Do(s, ClientStep(i))) < Rank(s)
  {
    var pc, sh' := s.clients[i], NextShared(s.sh, s.clients[i], i);
    assert Knows(s.sh, s.task.TaskDone?, pc);
    ClientWeightDrops(s.sh, pc, i);
    assert MustWait(sh') != MustWait(s.sh) ==> Holds(pc) && !pc.Test?;
    SumStable(MustWait(s.sh), MustWait(sh'), s.clients);
    SumAt(MustWait(sh'), s.clients, i, NextPc(s.sh, pc));
  }

  lemma Scaled(a: nat, b: nat, n: nat)
    requires a < b
    ensures a * n + n <= b * n
  {
    var d := b - a - 1;
    assert d * n >= 0;
    assert (a + 1 + d) * n == a * n + n + d * n;
  }

  /** Notifying the sleepers is the one step of the task that adds to the weights. */
  lemma TaskStepSum(s: State, r: FutureResult)
    requires Inv(s) && Enabled(s, TaskStep(r))
    ensures var t := Do(s, TaskStep(r));
            && |t.clients| == |s.clients| && TaskLeft(t.task) < TaskLeft(s.task) && t.creator == s.creator
            && Sum(MustWait(t.sh), t.clients) <= Sum(MustWait(s.sh), s.clients) + 7 * |s.clients|
  {
    var t := Do(s, TaskStep(r));
    SumStable(MustWait(s.sh), MustWait(t.sh), s.clients);
    SumWokenAll(MustWait(t.sh), s.clients);
  }

  lemma TaskStepRanks(s: State, r: FutureResult)
    requires Inv(s) && Enabled(s, TaskStep(r))
    ensures Rank(Do(s, TaskStep(r))) < Rank(s)
  {
    var t := Do(s, TaskStep(r));
    Scaled(TaskLeft(t.task), TaskLeft(s.task), 7 * |s.clients| + 1);
    TaskStepSum(s, r);
  }

  lemma WakeOneRanks(s: State, i: nat, j: nat)
    requires Enabled(s, WakeOne(i, j))
    ensures Rank(Do(s, WakeOne(i, j))) < Rank(s)
  {
    var wait, woken := MustWait(s.sh), s.clients[j := Woken(s.clients[j])];
    SumAt(wait, s.clients, j, Woken(s.clients[j]));
    SumAt(wait, woken, i, Leave(TimedOut));
    assert Do(s, WakeOne(i, j)).clients == woken[i := Leave(TimedOut)];
  }

  lemma HelpfulStepRanks(s: State, a: Action)
    requires Inv(s) && Helpful(s, a)
    ensures Rank(Do(s, a)) < Rank(s)
  {
    match a {
      case ClientStep(i) => ClientStepRanks(s, i);
      case TaskStep(r) => TaskStepRanks(s, r);
      case WakeOne(i, j) => WakeOneRanks(s, i, j);
      case CreatorStep =>
        SumStable(MustWait(s.sh), MustWait(Do(s, a).sh), s.clients);
    }
  }

  // ----- What this means for whole runs

  /** `t` follows from `s` by the helpful steps `acts`. */
  ghost predicate HelpfulRun(s: State, acts: seq<Action>, t: State)
    decreases |acts|
  {
    if acts == [] then s == t
    else Helpful(s, acts[0]) && HelpfulRun(Do(s, acts[0]), acts[1..], t)
  }

  /** Inside waited_result or waited_result_timed, with the deadline not (yet) passed. */
  predicate Waiting(pc: Pc) {
    pc.Peek? || pc.Enter? || pc.Check? || pc.Take? || pc.Drive? || pc.Claim? ||
    pc.Test? || pc.Asleep? || pc.Awake? || (pc.Leave? && pc.out.Resolved?) || (pc.Returned? && pc.out.Resolved?)
  }

  lemma WaitingKept(s: State, a: Action, i: nat)
    requires Inv(s) && Helpful(s, a) && i < |s.clients| && Waiting(s.clients[i])
    ensures i < |Do(s, a).clients| && Waiting(Do(s, a).clients[i])
  {
    assert Knows(s.sh, s.task.TaskDone?, s.clients[i]);
  }

  /** Who waited goes on waiting or has its result. */
  ghost predicate StillWaiting(before: seq<Pc>, after: seq<Pc>) {
    |after| == |before| && forall i | 0 <= i < |before| && Waiting(before[i]) :: Waiting(after[i])
  }

  lemma StepKeepsWaiting(s: State, a: Action)
    requires Inv(s) && Helpful(s, a)
    ensures StillWaiting(s.clients, Do(s, a).clients)
  {
    forall i | 0 <= i < |s.clients| && Waiting(s.clients[i]) ensures Waiting(Do(s, a).clients[i]) {
      WaitingKept(s, a, i);
    }
  }

  /** Runs of helpful steps are bounded, whatever the schedule. */
  lemma {:induction false} HelpfulRunsEnd(s: State, acts: seq<Action>, t: State)
    requires Inv(s) && HelpfulRun(s, acts, t)
    ensures Inv(t) && |acts| + Rank(t) <= Rank(s) && StillWaiting(s.clients, t.clients)
    decreases |acts|
  {
    if acts != [] {
      InvKept(s, acts[0]);
      HelpfulStepRanks(s, acts[0]);
      StepKeepsWaiting(s, acts[0]);
      HelpfulRunsEnd(Do(s, acts[0]), acts[1..], t);
    }
  }

  lemma StuckMeansDone(t: State)
    requires Inv(t) && forall a :: !Helpful(t, a)
    ensures AllDone(t)
  {
    forall i | 0 <= i < |t.clients|
      ensures Done(t.clients[i])
    {
      if !Done(t.clients[i]) {
        var a := SomeoneCanMove(t, i);
      }
    }
  }

  lemma DoneMeansCalledBack(t: State)
    requires Inv(t) && AllDone(t) && t.sh.result.Some? && !Helpful(t, TaskStep(Empty))
    ensures t.sh.invoked == t.sh.accepted
  {
    assert t.task.TaskDone?;
    assert !SomeClientOwes(t);
  }

  /** Every client that was waiting has been handed the result. */
  predicate Served(before: seq<Pc>, t: State, result: Option<FutureResult>) {
    |t.clients| == |before| &&
    forall i :: 0 <= i < |before| && Waiting(before[i]) ==>
      result.Some? && t.clients[i] == Returned(Resolved(result.value))
  }

  lemma StuckMeansServed(before: seq<Pc>, t: State)
    requires Inv(t) && |t.clients| == |before| && forall a :: !Helpful(t, a)
    requires forall i :: 0 <= i < |before| && Waiting(before[i]) ==> Waiting(t.clients[i])
    ensures AllDone(t) && Served(before, t, t.sh.result)
    ensures t.sh.result.Some? ==> t.sh.invoked == t.sh.accepted
  {
    StuckMeansDone(t);
    if t.sh.result.Some? {
      DoneMeansCalledBack(t);
    }
    forall i | 0 <= i < |before| && Waiting(before[i])
      ensures t.sh.result.Some? && t.clients[i] == Returned(Resolved(t.sh.result.value))
    {
      assert Knows(t.sh, t.task.TaskDone?, t.clients[i]);
    }
  }

  lemma {:induction false} HelpfulRunReaches(s: State, acts: seq<Action>, t: State)
    requires HelpfulRun(s, acts, t)
    ensures Reaches(s, acts, t)
    decreases |acts|
  {
    if acts != [] {
      HelpfulRunReaches(Do(s, acts[0]), acts[1..], t);
    }
  }

  lemma {:induction false} RunsJoin(r: State, prefix: seq<Action>, s: State, acts: seq<Action>, t: State)
    requires Reaches(r, prefix, s) && Reaches(s, acts, t)
    ensures Reaches(r, prefix + acts, t)
    decreases |prefix|
  {
    if prefix == [] {
      assert prefix + acts == acts;
    } else {
      RunsJoin(Do(r, prefix[0]), prefix[1..], s, acts, t);
      assert (prefix + acts)[1..] == prefix[1..] + acts;
    }
  }

  /** No deadlock and no lost wake-up: from every reachable state, every schedule of helpful steps
      is bounded by the rank, and when none is left every call has returned and every waiter has
      been handed what the awaited future completed with, even if only waiters can drive the task. */
  lemma EveryWaiterIsServed(n: nat, prefix: seq<Action>, s: State, acts: seq<Action>, t: State)
    requires Reaches(Init(n), prefix, s) && HelpfulRun(s, acts, t)
    ensures |acts| <= Rank(s)
    ensures (forall a :: !Helpful(t, a)) ==>
              AllDone(t) && Served(s.clients, t, Completion(Init(n), prefix + acts)) &&
              (t.sh.result.Some? ==> t.sh.invoked == t.sh.accepted)
  {
    assert Inv(s) by {
      InitInv(n);
      InvReached(Init(n), prefix, s);
    }
    HelpfulRunsEnd(s, acts, t);
    if forall a :: !Helpful(t, a) {
      StuckMeansServed(s.clients, t);
      HelpfulRunReaches(s, acts, t);
      RunsJoin(Init(n), prefix, s, acts, t);
      ResultIsCompletion(Init(n), prefix + acts, t);
    }
  }

  /** Such a final state is always within reach. */
  lemma {:induction false} ServedStateIsReachable(s: State) returns (acts: seq<Action>, t: State)
    requires Inv(s)
    ensures HelpfulRun(s, acts, t) && AllDone(t)
    decreases Rank(s)
  {
    if AllDone(s) {
      return [], s;
    }
    var i :| 0 <= i < |s.clients| && !Done(s.clients[i]);
    var a := SomeoneCanMove(s, i);
    InvKept(s, a);
    HelpfulStepRanks(s, a);
    var rest, last := ServedStateIsReachable(Do(s, a));
    acts, t := [a] + rest, last;
    assert acts[1..] == rest;
  }
}
