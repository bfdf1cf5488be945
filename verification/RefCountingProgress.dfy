/**
 The last release leads to the delete: operations that were started come to an end, whatever the
 schedule, and then every object is either referenced by a handle or freed.
 */
module RefCountingProgress {
  import opened Prelude
  import opened RefCounting
  import opened RefCountingSafety

  // ----- Whoever is new or being destroyed is in somebody's hands

  ghost predicate HasOwner(s: State, o: ObjId) {
    exists t, k :: IsFrame(s, t, k) && OwnsObject(s.threads[t][k], o)
  }

  predicate NeedsOwner(s: State, o: ObjId) {
    o in s.objs && (s.objs[o].phase.Fresh? || s.objs[o].phase.Dying?)
  }

  ghost predicate Owned(s: State) {
    forall o | NeedsOwner(s, o) :: HasOwner(s, o)
  }

  lemma OwnerKept(s: State, u: State, t: nat, b: nat, t': int, k: int, o: ObjId)
    requires Changes(s, u, t, b) && Kept(s, t, b, t', k) && OwnsObject(s.threads[t'][k], o)
    ensures HasOwner(u, o)
  {
    if t' == t {
      assert s.threads[t][..b][k] == u.threads[t][..b][k];
    }
    assert IsFrame(u, t', k) && OwnsObject(u.threads[t'][k], o);
  }

  /** The frame on top that owns an object gives it up only as live or freed. */
  lemma TopGivesUp(s: State, t: nat, o: ObjId)
    requires FramesOk(s) && Enabled(s, Step(t)) && OwnsObject(Top(s, t), o)
    ensures !NeedsOwner(Advance(s, t), o)
  {
    assert FrameAt(s, t, |s.threads[t]| - 1);
  }

  /** An object that needs an owner after a step needed one before, or is the one just released. */
  lemma NeededBefore(s: State, t: nat, o: ObjId)
    requires Enabled(s, Step(t)) && NeedsOwner(Advance(s, t), o)
    ensures NeedsOwner(s, o) || (|Advance(s, t).threads[t]| == |s.threads[t]| && Advance(s, t).threads[t][|s.threads[t]| - 1] == Destroying(o))
  {
  }

  lemma StepOwned(s: State, t: nat)
    requires Inv(s) && Owned(s) && Enabled(s, Step(t))
    ensures Owned(Advance(s, t))
  {
    var u, b := Advance(s, t), |s.threads[t]| - 1;
    StepChanges(s, t);
    forall o | NeedsOwner(u, o) ensures HasOwner(u, o) {
      NeededBefore(s, t, o);
      if |u.threads[t]| == b + 1 && u.threads[t][b] == Destroying(o) {
        assert IsFrame(u, t, b) && OwnsObject(u.threads[t][b], o);
      } else {
        var t', k :| IsFrame(s, t', k) && OwnsObject(s.threads[t'][k], o);
        assert !(t' == t && k == b) by {
          if OwnsObject(Top(s, t), o) {
            TopGivesUp(s, t, o);
          }
        }
        OwnerKept(s, u, t, b, t', k, o);
      }
    }
  }

  lemma StartOwned(s: State, a: Action)
    requires Inv(s) && Owned(s) && Enabled(s, a) && !a.Step?
    ensures Owned(Start(s, a))
  {
    var u := Start(s, a);
    forall o | NeedsOwner(u, o) ensures HasOwner(u, o) {
      if o in s.objs {
        assert NeedsOwner(s, o);
        var t', k :| IsFrame(s, t', k) && OwnsObject(s.threads[t'][k], o);
        assert IsFrame(u, t', k) && u.threads[t'][k] == s.threads[t'][k];
      } else {
        assert IsFrame(u, a.t, 0) && OwnsObject(u.threads[a.t][0], o);
      }
    }
  }

  lemma {:induction false} OwnedReached(s: State, acts: seq<Action>, u: State)
    requires Inv(s) && Owned(s) && Reaches(s, acts, u)
    ensures Inv(u) && Owned(u)
    decreases |acts|
  {
    if acts != [] {
      InvKept(s, acts[0]);
      if acts[0].Step? {
        StepOwned(s, acts[0].t);
      } else {
        StartOwned(s, acts[0]);
      }
      OwnedReached(Do(s, acts[0]), acts[1..], u);
    }
  }

  // ----- Operations end

  /** Continuing what was started: a step of an operation, or the destruction of a member. */
  predicate Continues(s: State, a: Action) {
    Enabled(s, a) && (a.Step? || a.DestroyMember?)
  }

  function Weight(f: Frame): nat {
    match f
    case Adopt(_, _) => 1
    case Inc(_, _, _, _) => 4
    case Store(_, _, _) => 3
    case Release(_) => 2
    case Destroying(_) => 1
    case MoveOut(_, _, _) => 2
    case MoveNull(_, _) => 1
  }

  function StackWeight(stack: seq<Frame>): nat {
    if stack == [] then 0 else StackWeight(stack[..|stack| - 1]) + Weight(stack[|stack| - 1])
  }

  function ThreadsWeight(threads: seq<seq<Frame>>): nat {
    if threads == [] then 0 else ThreadsWeight(threads[..|threads| - 1]) + StackWeight(threads[|threads| - 1])
  }

  function Rank(s: State): nat {
    3 * |s.cells| + ThreadsWeight(s.threads)
  }

  lemma {:induction false} WeightAt(threads: seq<seq<Frame>>, t: nat, stack: seq<Frame>)
    requires t < |threads|
    ensures ThreadsWeight(threads[t := stack]) + StackWeight(threads[t]) == ThreadsWeight(threads) + StackWeight(stack)
  {
    var n := |threads| - 1;
    if t == n {
      assert threads[t := stack][..n] == threads[..n];
    } else {
      assert threads[t := stack][..n] == threads[..n][t := stack];
      WeightAt(threads[..n], t, stack);
    }
  }

  lemma Push(stack: seq<Frame>, f: Frame)
    ensures StackWeight(stack + [f]) == StackWeight(stack) + Weight(f)
  {
    assert (stack + [f])[..|stack + [f]| - 1] == stack;
  }

  lemma PushReleases(stack: seq<Frame>, r: Ref)
    ensures StackWeight(stack + Releases(r)) <= StackWeight(stack) + 2
  {
    if r.Null? {
      assert stack + Releases(r) == stack;
    } else {
      Push(stack, Release(r.o));
    }
  }

  lemma StepRanks(s: State, t: nat)
    requires Enabled(s, Step(t))
    ensures Rank(Advance(s, t)) < Rank(s)
  {
    var u := Advance(s, t);
    StepWrites(s, t);
    assert |u.cells.Keys| == |s.cells.Keys|;
    StackLoses(s, t);
    WeightAt(s.threads, t, u.threads[t]);
    assert u.threads == s.threads[t := u.threads[t]];
  }

  lemma StackLoses(s: State, t: nat)
    requires Enabled(s, Step(t))
    ensures StackWeight(Advance(s, t).threads[t]) < StackWeight(s.threads[t])
  {
    var f, rest := Top(s, t), Rest(s, t);
    assert s.threads[t] == rest + [f];
    Push(rest, f);
    if f.Inc? {
      Push(rest, Store(Some(f.o), f.dst, f.uses));
    } else if f.Store? {
      PushReleases(rest, PtrOf(s.cells, f.dst));
    } else if f.Release? {
      Push(rest, Destroying(f.o));
    } else if f.MoveOut? {
      Push(rest, MoveNull(f.src, f.pins + ({f.dst} - {f.src})));
    }
  }

  lemma MemberRanks(s: State, t: nat, c: CellId)
    requires Enabled(s, DestroyMember(t, c))
    ensures Rank(Start(s, DestroyMember(t, c))) < Rank(s)
  {
    var u := Start(s, DestroyMember(t, c));
    assert u.cells.Keys == s.cells.Keys - {c};
    WeightAt(s.threads, t, u.threads[t]);
    PushReleases(s.threads[t], s.cells[c].ptr);
  }

  predicate ContinuingRun(s: State, acts: seq<Action>, u: State)
    decreases |acts|
  {
    if acts == [] then s == u
    else Continues(s, acts[0]) && ContinuingRun(Do(s, acts[0]), acts[1..], u)
  }

  predicate AllIdle(s: State) {
    forall t | 0 <= t < |s.threads| :: s.threads[t] == []
  }

  /** A thread in the middle of an operation can always go on: nothing here waits. */
  lemma BusyCanContinue(s: State, t: nat) returns (a: Action)
    requires t < |s.threads| && s.threads[t] != []
    ensures Continues(s, a)
  {
    if Enabled(s, Step(t)) {
      a := Step(t);
    } else {
      var c :| c in s.cells && s.cells[c].home == Some(Top(s, t).o);
      a := DestroyMember(t, c);
    }
  }

  lemma {:induction false} ContinuingEnds(s: State, acts: seq<Action>, u: State)
    requires Inv(s) && Owned(s) && ContinuingRun(s, acts, u)
    ensures Inv(u) && Owned(u) && |acts| + Rank(u) <= Rank(s)
    decreases |acts|
  {
    if acts != [] {
      InvKept(s, acts[0]);
      if acts[0].Step? {
        StepOwned(s, acts[0].t);
        StepRanks(s, acts[0].t);
      } else {
        StartOwned(s, acts[0]);
        MemberRanks(s, acts[0].t, acts[0].c);
      }
      ContinuingEnds(Do(s, acts[0]), acts[1..], u);
    }
  }

  /** Every object has been freed, or a handle still refers to it and the count says how many do. */
  predicate Settled(s: State) {
    forall o | o in s.objs ::
      if HeldBy(s.cells, o) == {} then s.objs[o].phase.Freed?
      else s.objs[o].phase.Live? && s.objs[o].count == |HeldBy(s.cells, o)|
  }

  lemma {:induction false} NoneInFlight(threads: seq<seq<Frame>>, o: ObjId)
    requires forall t | 0 <= t < |threads| :: threads[t] == []
    ensures InFlight(threads, o) == 0
  {
    if threads != [] {
      NoneInFlight(threads[..|threads| - 1], o);
    }
  }

  lemma IdleIsSettled(s: State)
    requires CountsOk(s) && Owned(s) && AllIdle(s)
    ensures Settled(s)
  {
    forall o | o in s.objs
      ensures if HeldBy(s.cells, o) == {} then s.objs[o].phase.Freed?
              else s.objs[o].phase.Live? && s.objs[o].count == |HeldBy(s.cells, o)|
    {
      NoneInFlight(s.threads, o);
      assert !HasOwner(s, o);
      assert !NeedsOwner(s, o);
    }
  }

  lemma InitOwned(n: nat)
    ensures Inv(Init(n)) && Owned(Init(n))
  {
    InitInv(n);
  }

  /** In every reachable state in which no operation is in progress, an object is live with as many
      references as handles hold, or it has been freed. */
  lemma IdleStatesAreSettled(n: nat, acts: seq<Action>, u: State)
    requires Reaches(Init(n), acts, u) && AllIdle(u)
    ensures Settled(u)
  {
    InitOwned(n);
    OwnedReached(Init(n), acts, u);
    IdleIsSettled(u);
  }

  /** The delete happens: from every reachable state, whatever the schedule, the operations in
      progress end within a bound, and when they have, every object no handle refers to is freed. */
  lemma LastReleaseDeletes(n: nat, prefix: seq<Action>, s: State, acts: seq<Action>, u: State)
    requires Reaches(Init(n), prefix, s) && ContinuingRun(s, acts, u)
    ensures |acts| <= Rank(s)
    ensures (forall a :: !Continues(u, a)) ==> AllIdle(u) && Settled(u)
  {
    InitOwned(n);
    OwnedReached(Init(n), prefix, s);
    ContinuingEnds(s, acts, u);
    if forall a :: !Continues(u, a) {
      forall t | 0 <= t < |u.threads| ensures u.threads[t] == [] {
        if u.threads[t] != [] {
          var a := BusyCanContinue(u, t);
        }
      }
      IdleIsSettled(u);
    }
  }
}
