/**
 What a call to a future gives back: which outcomes belong to which call, and why.
 */
module FutureAnswers {

  import opened Prelude
  import opened FutureProtocol
  import opened FutureProgress

  /** An outcome a call that started at `start` can have; `late` and `bad` tell whether its deadline
      has passed, or could not be computed. */
  predicate Possible(start: Pc, out: Outcome, late: bool, bad: bool) {
    match out
    case Resolved(_) => start.Peek?
    case TimedOut => start == Peek(true) && late
    case InvalidDuration => start == Peek(true) && bad
    case CallbackSet(cb) => start == CbEnter(cb)
    case CallbackAlreadySet => start.CbEnter?
    case Panicked => false
  }

  /** The positions a call that started at `start` goes through. */
  predicate Under(start: Pc, pc: Pc, late: bool, bad: bool) {
    match pc
    case Idle => false
    case Peek(timed) => start == Peek(timed)
    case Enter(timed) => start == Peek(timed)
    case Check(timed) => start == Peek(timed)
    case Take(timed) => start == Peek(timed)
    case Drive(timed) => start == Peek(timed)
    case Test(timed) => start == Peek(timed)
    case Asleep(timed) => start == Peek(timed)
    case Awake(timed) => start == Peek(timed)
    case Claim => start.Peek?
    case Relock => start == Peek(true) && late
    case GiveBack => start == Peek(true) && late
    case Notify => start == Peek(true) && late
    case CbEnter(cb) => start == CbEnter(cb)
    case CbTest(cb) => start == CbEnter(cb)
    case CbStore(cb) => start == CbEnter(cb)
    case CbPeek(cb) => start == CbEnter(cb)
    case CbUnlock(cb) => start == CbEnter(cb)
    case CbInvoke(cb) => start == CbEnter(cb)
    case Leave(out) => Possible(start, out, late, bad)
    case Returned(out) => Possible(start, out, late, bad)
  }

  lemma OwnStepStaysUnder(sh: Shared, pc: Pc, start: Pc, late: bool, bad: bool)
    requires Under(start, pc, late, bad) && (pc.Claim? ==> sh.result.Some?)
    ensures Under(start, NextPc(sh, pc), late, bad)
  {
  }

  lemma WokenStaysUnder(pc: Pc, start: Pc, late: bool, bad: bool)
    requires Under(start, pc, late, bad)
    ensures Under(start, Woken(pc), late, bad)
  {
  }

  lemma OthersLeaveUnder(s: State, a: Action, i: nat, start: Pc, late: bool, bad: bool)
    requires Enabled(s, a) && i < |s.clients| && Under(start, s.clients[i], late, bad)
    requires a != ClientStep(i) && a != DeadlinePasses(i) && a != BadDeadline(i) && !(a.Call? && a.i == i) && !(a.WakeOne? && a.i == i)
    ensures |Do(s, a).clients| == |s.clients| && Under(start, Do(s, a).clients[i], late, bad)
  {
    WokenStaysUnder(s.clients[i], start, late, bad);
    assert Do(s, a).clients[i] == s.clients[i] || Do(s, a).clients[i] == Woken(s.clients[i]);
  }

  lemma ClaimHasResult(s: State, i: nat)
    requires Inv(s) && i < |s.clients| && s.clients[i].Claim?
    ensures s.sh.result.Some?
  {
    assert Knows(s.sh, s.task.TaskDone?, s.clients[i]);
  }

  lemma StepStaysUnder(s: State, a: Action, i: nat, start: Pc, late: bool, bad: bool)
    requires Enabled(s, a) && i < |s.clients| && Under(start, s.clients[i], late, bad) && !(a.Call? && a.i == i)
    requires s.clients[i].Claim? ==> s.sh.result.Some?
    ensures |Do(s, a).clients| == |s.clients|
    ensures Under(start, Do(s, a).clients[i], late || a == DeadlinePasses(i), bad || a == BadDeadline(i))
  {
    if a == ClientStep(i) {
      OwnStepStaysUnder(s.sh, s.clients[i], start, late, bad);
    } else if a == DeadlinePasses(i) || a == BadDeadline(i) || (a.WakeOne? && a.i == i) {
    } else {
      OthersLeaveUnder(s, a, i, start, late, bad);
    }
  }

  /** Client `i` makes no new call. */
  predicate NoCall(acts: seq<Action>, i: nat) {
    forall k | 0 <= k < |acts| :: !(acts[k].Call? && acts[k].i == i)
  }

  lemma {:induction false} StaysUnder(s: State, acts: seq<Action>, t: State, i: nat, start: Pc, late: bool, bad: bool)
    requires Inv(s) && Reaches(s, acts, t) && i < |s.clients| && Under(start, s.clients[i], late, bad) && NoCall(acts, i)
    ensures |t.clients| == |s.clients|
    ensures Under(start, t.clients[i], late || DeadlinePasses(i) in acts, bad || BadDeadline(i) in acts)
    decreases |acts|
  {
    if acts != [] {
      var a := acts[0];
      InvKept(s, a);
      if s.clients[i].Claim? {
        ClaimHasResult(s, i);
      }
      StepStaysUnder(s, a, i, start, late, bad);
      StaysUnder(Do(s, a), acts[1..], t, i, start, late || a == DeadlinePasses(i), bad || a == BadDeadline(i));
      assert acts == [a] + acts[1..];
    }
  }

  /** Every call gives the answer it was asked for: a wait gives what the awaited future completed
      with, or times out after its own deadline, if it has one; `set_callback` reports on its own
      callback. */
  lemma CallsAreAnswered(n: nat, before: seq<Action>, s: State, i: nat, start: Pc, acts: seq<Action>, t: State)
    requires Reaches(Init(n), before, s) && Enabled(s, Call(i, start)) && NoCall(acts, i)
    requires Reaches(Do(s, Call(i, start)), acts, t)
    ensures |t.clients| == |s.clients|
    ensures t.clients[i].Returned? ==>
              && Possible(start, t.clients[i].out, DeadlinePasses(i) in acts, BadDeadline(i) in acts)
              && (t.clients[i].out.Resolved? ==> Completion(Init(n), before + ([Call(i, start)] + acts)) == Some(t.clients[i].out.r))
              && (t.clients[i].out.CallbackSet? ==> t.sh.callback == Some(start.cb))
  {
    InitInv(n);
    InvReached(Init(n), before, s);
    InvKept(s, Call(i, start));
    StaysUnder(Do(s, Call(i, start)), acts, t, i, start, false, false);
    assert ([Call(i, start)] + acts)[1..] == acts;
    RunsJoin(Init(n), before, s, [Call(i, start)] + acts, t);
    FutureIsSafe(n, before + ([Call(i, start)] + acts), t);
  }

  // ----- What is there already decides the answer

  /** A wait that finds the result there, before and after its one step. */
  predicate Ready(pc: Pc, r: FutureResult) {
    pc.Peek? || pc == Returned(Resolved(r))
  }

  lemma {:induction false} StaysReady(s: State, acts: seq<Action>, t: State, i: nat, r: FutureResult)
    requires Reaches(s, acts, t) && i < |s.clients| && s.sh.result == Some(r) && Ready(s.clients[i], r) && NoCall(acts, i)
    ensures |t.clients| == |s.clients| && Ready(t.clients[i], r)
    decreases |acts|
  {
    if acts != [] {
      if !(s.task.Pending? && acts[0].TaskStep?) {
        StepKeepsResult(s, acts[0]);
      }
      StaysReady(Do(s, acts[0]), acts[1..], t, i, r);
    }
  }

  /** A future that is resolved answers at once, with or without a deadline. */
  lemma ResolvedAnswersAtOnce(s: State, i: nat, timed: bool, acts: seq<Action>, t: State)
    requires s.sh.result.Some? && Enabled(s, Call(i, Peek(timed))) && Reaches(Do(s, Call(i, Peek(timed))), acts, t) && NoCall(acts, i)
    ensures |t.clients| == |s.clients| && (t.clients[i] == Peek(timed) || t.clients[i] == Returned(Resolved(s.sh.result.value)))
    ensures Enabled(Do(s, Call(i, Peek(timed))), ClientStep(i))
  {
    StaysReady(Do(s, Call(i, Peek(timed))), acts, t, i, s.sh.result.value);
    PeekStays(Do(s, Call(i, Peek(timed))), acts, t, i, timed);
  }

  lemma {:induction false} PeekStays(s: State, acts: seq<Action>, t: State, i: nat, timed: bool)
    requires Reaches(s, acts, t) && i < |s.clients| && (s.clients[i] == Peek(timed) || !s.clients[i].Peek?) && NoCall(acts, i)
    ensures |t.clients| == |s.clients| && (t.clients[i] == Peek(timed) || !t.clients[i].Peek?)
    decreases |acts|
  {
    if acts != [] {
      PeekStays(Do(s, acts[0]), acts[1..], t, i, timed);
    }
  }

  predicate Refused(pc: Pc) {
    pc.CbEnter? || pc.CbTest? || pc == Leave(CallbackAlreadySet) || pc == Returned(CallbackAlreadySet)
  }

  lemma {:induction false} StaysRefused(s: State, acts: seq<Action>, t: State, i: nat)
    requires Reaches(s, acts, t) && i < |s.clients| && s.sh.callback.Some? && Refused(s.clients[i]) && NoCall(acts, i)
    ensures |t.clients| == |s.clients| && Refused(t.clients[i])
    decreases |acts|
  {
    if acts != [] {
      StaysRefused(Do(s, acts[0]), acts[1..], t, i);
    }
  }

  /** Once a callback is set, every other one is refused. */
  lemma SecondCallbackIsRefused(s: State, i: nat, cb: BoundCallback, acts: seq<Action>, t: State)
    requires s.sh.callback.Some? && Enabled(s, Call(i, CbEnter(cb))) && Reaches(Do(s, Call(i, CbEnter(cb))), acts, t) && NoCall(acts, i)
    ensures |t.clients| == |s.clients| && (t.clients[i].Returned? ==> t.clients[i].out == CallbackAlreadySet)
  {
    StaysRefused(Do(s, Call(i, CbEnter(cb))), acts, t, i);
  }
}
