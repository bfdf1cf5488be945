/**
 Every interleaving of `SharedRefPtr` operations keeps the counts exact, never touches a freed
 object and deletes each object once.
 */
module RefCountingSafety {
  import opened Prelude
  import opened RefCounting

  lemma {:induction false} NothingInFlight(n: nat, o: ObjId)
    ensures InFlight(NoFrames(n), o) == 0
  {
    if n > 0 {
      assert NoFrames(n)[..n - 1] == NoFrames(n - 1);
      NothingInFlight(n - 1, o);
    }
  }

  lemma InitInv(n: nat)
    ensures Inv(Init(n))
  {
    forall o
      ensures References(Init(n), o) == 0
    {
      NothingInFlight(n, o);
      assert HeldBy(map[], o) == {};
    }
  }

  // ----- Counting

  lemma {:induction false} InFlightAt(threads: seq<seq<Frame>>, t: nat, stack: seq<Frame>, o: ObjId)
    requires t < |threads|
    ensures InFlight(threads[t := stack], o) + Carried(threads[t], o) == InFlight(threads, o) + Carried(stack, o)
  {
    var n := |threads| - 1;
    if t == n {
      assert threads[t := stack][..n] == threads[..n];
    } else {
      assert threads[t := stack][..n] == threads[..n][t := stack];
      InFlightAt(threads[..n], t, stack, o);
    }
  }

  lemma CarriedPush(stack: seq<Frame>, f: Frame, o: ObjId)
    ensures Carried(stack + [f], o) == Carried(stack, o) + (if Carries(f, o) then 1 else 0)
  {
    assert (stack + [f])[..|stack + [f]| - 1] == stack;
  }

  lemma {:induction false} CarriedAt(stack: seq<Frame>, k: nat, o: ObjId)
    requires k < |stack| && Carries(stack[k], o)
    ensures Carried(stack, o) >= 1
  {
    if k < |stack| - 1 {
      CarriedAt(stack[..|stack| - 1], k, o);
    }
  }

  lemma {:induction false} InFlightSome(threads: seq<seq<Frame>>, t: nat, k: nat, o: ObjId)
    requires t < |threads| && k < |threads[t]| && Carries(threads[t][k], o)
    ensures InFlight(threads, o) >= 1
  {
    if t == |threads| - 1 {
      CarriedAt(threads[t], k, o);
    } else {
      InFlightSome(threads[..|threads| - 1], t, k, o);
    }
  }

  /** How setting one cell changes the number of cells that hold `o`. */
  lemma HeldAfter(cells: map<CellId, Cell>, c: CellId, x: Cell, o: ObjId)
    ensures |HeldBy(cells[c := x], o)| + (if c in cells && cells[c].ptr == Held(o) then 1 else 0) ==
            |HeldBy(cells, o)| + (if x.ptr == Held(o) then 1 else 0)
  {
    var before, after := HeldBy(cells, o), HeldBy(cells[c := x], o);
    assert before - {c} == after - {c};
    assert c in before ==> |before| == |before - {c}| + 1;
    assert c !in before ==> before - {c} == before;
    assert c in after ==> |after| == |after - {c}| + 1;
    assert c !in after ==> after - {c} == after;
  }

  lemma HeldRemoved(cells: map<CellId, Cell>, c: CellId, o: ObjId)
    requires c in cells
    ensures |HeldBy(cells - {c}, o)| + (if cells[c].ptr == Held(o) then 1 else 0) == |HeldBy(cells, o)|
  {
    var before, after := HeldBy(cells, o), HeldBy(cells - {c}, o);
    assert after == before - {c};
    assert c in before ==> |before| == |before - {c}| + 1;
  }

  lemma HeldWithMembers(cells: map<CellId, Cell>, o: ObjId, members: set<CellId>, x: ObjId)
    requires members !! cells.Keys
    ensures HeldBy(WithMembers(cells, o, members), x) == HeldBy(cells, x)
  {
  }

  // ----- Replacing the top of one thread's stack

  /** From `s` to `u` only thread `t` moved, and its first `b` frames are as they were. */
  predicate Changes(s: State, u: State, t: nat, b: nat) {
    && t < |s.threads| == |u.threads|
    && u.threads == s.threads[t := u.threads[t]]
    && b <= |s.threads[t]| && b <= |u.threads[t]|
    && u.threads[t][..b] == s.threads[t][..b]
  }

  predicate Kept(s: State, t: nat, b: nat, t': int, k: int) {
    0 <= t' < |s.threads| && 0 <= k < |s.threads[t']| && (t' != t || k < b)
  }

  lemma KeptFrames(s: State, u: State, t: nat, b: nat, t': nat, k: nat)
    requires Changes(s, u, t, b) && t' < |u.threads| && k < |u.threads[t']| && (t' != t || k < b)
    ensures Kept(s, t, b, t', k) && u.threads[t'][k] == s.threads[t'][k]
  {
    if t' == t {
      assert u.threads[t][k] == u.threads[t][..b][k];
    }
  }

  lemma FrameStable(s: State, u: State, f: Frame)
    requires FrameOk(s.objs, s.cells, f)
    requires forall c | c in Uses(f) :: c in s.cells && c in u.cells && u.cells[c] == s.cells[c]
    requires forall o | OwnsObject(f, o) :: o in u.objs && o in s.objs && u.objs[o].phase == s.objs[o].phase
    ensures FrameOk(u.objs, u.cells, f)
  {
    if f.Adopt? || f.Destroying? || (f.Inc? && f.isNew) {
      assert OwnsObject(f, f.o);
    }
    forall o, pins: set<CellId> | pins <= Uses(f) && Pinned(s.cells, pins, o)
      ensures Pinned(u.cells, pins, o)
    {
      var q :| q in pins && q in s.cells && s.cells[q].ptr == Held(o);
      assert q in u.cells;
    }
  }

  lemma FramesGlue(s: State, u: State, t: nat, b: nat)
    requires FramesOk(s) && Changes(s, u, t, b)
    requires forall t', k | Kept(s, t, b, t', k) :: forall c | c in Uses(s.threads[t'][k]) ::
               c in s.cells && c in u.cells && u.cells[c] == s.cells[c]
    requires forall t', k | Kept(s, t, b, t', k) :: forall o | OwnsObject(s.threads[t'][k], o) ::
               o in u.objs && o in s.objs && u.objs[o].phase == s.objs[o].phase
    requires forall k | b <= k < |u.threads[t]| :: FrameOk(u.objs, u.cells, u.threads[t][k])
    ensures FramesOk(u)
  {
    forall t', k
      ensures FrameAt(u, t', k)
    {
      if 0 <= t' < |u.threads| && 0 <= k < |u.threads[t']| && (t' != t || k < b) {
        KeptFrames(s, u, t, b, t', k);
        assert FrameAt(s, t', k);
        FrameStable(s, u, s.threads[t'][k]);
      }
    }
  }

  lemma DisjointGlue(s: State, u: State, t: nat, b: nat, uses: set<CellId>, writes: set<CellId>)
    requires Disjoint(s) && Changes(s, u, t, b)
    requires forall t', k | Kept(s, t, b, t', k) :: !Conflict(s.threads[t'][k], uses, writes)
    requires forall k | b <= k < |u.threads[t]| :: Uses(u.threads[t][k]) <= uses && Writes(u.threads[t][k]) <= writes
    requires forall k | b < k < |u.threads[t]| :: Uses(u.threads[t][k]) == {} && Writes(u.threads[t][k]) == {}
    ensures Disjoint(u)
  {
    forall t1, k1, t2, k2
      ensures Apart(u, t1, k1, t2, k2)
    {
      if 0 <= t1 < |u.threads| && 0 <= k1 < |u.threads[t1]| && 0 <= t2 < |u.threads| && 0 <= k2 < |u.threads[t2]| {
        assert Apart(s, t1, k1, t2, k2);
        if t1 != t || k1 < b {
          KeptFrames(s, u, t, b, t1, k1);
        }
        if t2 != t || k2 < b {
          KeptFrames(s, u, t, b, t2, k2);
        }
      }
    }
  }

  lemma SoleOwnersGlue(s: State, u: State, t: nat, b: nat)
    requires SoleOwners(s) && Changes(s, u, t, b) && |u.threads[t]| <= b + 2
    requires forall k, o | b <= k < |u.threads[t]| && OwnsObject(u.threads[t][k], o) ::
               k == b && forall t', k' | Kept(s, t, b, t', k') :: !OwnsObject(s.threads[t'][k'], o)
    ensures SoleOwners(u)
  {
    forall t1, k1, t2, k2, o
      ensures OneOwner(u, t1, k1, t2, k2, o)
    {
      if 0 <= t1 < |u.threads| && 0 <= k1 < |u.threads[t1]| && 0 <= t2 < |u.threads| && 0 <= k2 < |u.threads[t2]| {
        assert OneOwner(s, t1, k1, t2, k2, o);
        if t1 != t || k1 < b {
          KeptFrames(s, u, t, b, t1, k1);
        }
        if t2 != t || k2 < b {
          KeptFrames(s, u, t, b, t2, k2);
        }
      }
    }
  }

  // ----- Whoever holds a reference holds it to a live object

  lemma HeldIsLive(s: State, c: CellId)
    requires CountsOk(s) && c in s.cells && s.cells[c].ptr.Held?
    ensures s.cells[c].ptr.o in s.objs && s.objs[s.cells[c].ptr.o].phase.Live?
  {
    var o := s.cells[c].ptr.o;
    assert c in HeldBy(s.cells, o);
    assert |HeldBy(s.cells, o)| >= 1;
  }

  lemma PinnedIsLive(s: State, pins: set<CellId>, o: ObjId)
    requires CountsOk(s) && Pinned(s.cells, pins, o)
    ensures o in s.objs && s.objs[o].phase.Live?
  {
    var q :| q in pins && q in s.cells && s.cells[q].ptr == Held(o);
    HeldIsLive(s, q);
  }

  lemma CarriedIsLive(s: State, t: nat, k: nat, o: ObjId)
    requires CountsOk(s) && t < |s.threads| && k < |s.threads[t]| && Carries(s.threads[t][k], o)
    ensures o in s.objs && s.objs[o].phase.Live?
  {
    InFlightSome(s.threads, t, k, o);
  }

  /** A cell inside a dying object is used by no operation. */
  lemma DyingCellsUnused(s: State, c: CellId, t: nat, k: nat)
    requires Inv(s) && c in s.cells && s.cells[c].home.Some?
    requires s.cells[c].home.value in s.objs && s.objs[s.cells[c].home.value].phase.Dying?
    requires t < |s.threads| && k < |s.threads[t]|
    ensures c !in Uses(s.threads[t][k])
  {
    var f, o := s.threads[t][k], s.cells[c].home.value;
    assert FrameAt(s, t, k);
    if c in Uses(f) {
      var pins := if f.Inc? || f.Store? then f.uses else if f.MoveOut? || f.MoveNull? then f.pins else {};
      assert Pinned(s.cells, pins, o);
      PinnedIsLive(s, pins, o);
    }
  }

  // ----- One step of an operation

  lemma MoveWrites(cells: map<CellId, Cell>, dst: CellId, src: CellId)
    ensures Moved(cells, dst, src).Keys == cells.Keys
    ensures forall c | c in cells && c != dst && c != src :: Moved(cells, dst, src)[c] == cells[c]
    ensures forall c | c in cells :: Moved(cells, dst, src)[c].home == cells[c].home
  {
  }

  lemma StepWrites(s: State, t: nat)
    requires Enabled(s, Step(t))
    ensures Advance(s, t).cells.Keys == s.cells.Keys
    ensures forall c | c in s.cells && c !in Writes(Top(s, t)) :: Advance(s, t).cells[c] == s.cells[c]
    ensures forall c | c in s.cells :: Advance(s, t).cells[c].home == s.cells[c].home
  {
    var f := Top(s, t);
    if f.MoveOut? {
      MoveWrites(s.cells, f.dst, f.src);
    }
  }

  lemma StepChanges(s: State, t: nat)
    requires Enabled(s, Step(t))
    ensures Changes(s, Advance(s, t), t, |s.threads[t]| - 1)
    ensures |Advance(s, t).threads[t]| <= |s.threads[t]|
  {
  }

  lemma StepSparesOthers(s: State, t: nat)
    requires Inv(s) && Enabled(s, Step(t))
    ensures forall t', k | Kept(s, t, |s.threads[t]| - 1, t', k) :: forall c | c in Uses(s.threads[t'][k]) ::
              c in s.cells && c in Advance(s, t).cells && Advance(s, t).cells[c] == s.cells[c]
  {
    StepWrites(s, t);
    var b := |s.threads[t]| - 1;
    forall t', k | Kept(s, t, b, t', k)
      ensures forall c | c in Uses(s.threads[t'][k]) :: c in s.cells && c !in Writes(Top(s, t))
    {
      assert FrameAt(s, t', k);
      assert Apart(s, t, b, t', k);
    }
  }

  lemma StepSparesOwners(s: State, t: nat)
    requires Inv(s) && Enabled(s, Step(t))
    ensures forall t', k | Kept(s, t, |s.threads[t]| - 1, t', k) :: forall o | OwnsObject(s.threads[t'][k], o) ::
              && o in Advance(s, t).objs && o in s.objs && Advance(s, t).objs[o].phase == s.objs[o].phase
              && !OwnsObject(Top(s, t), o) && !s.objs[o].phase.Live?
  {
    var b := |s.threads[t]| - 1;
    var f := s.threads[t][b];
    assert FrameAt(s, t, b);
    if f.Release? {
      CarriedIsLive(s, t, b, f.o);
    } else if f.Inc? && !f.isNew {
      PinnedIsLive(s, f.uses, f.o);
    }
    forall t', k, o | Kept(s, t, b, t', k) && OwnsObject(s.threads[t'][k], o)
      ensures && o in Advance(s, t).objs && o in s.objs && Advance(s, t).objs[o].phase == s.objs[o].phase
              && !OwnsObject(f, o) && !s.objs[o].phase.Live?
    {
      assert OneOwner(s, t, b, t', k, o);
      assert FrameAt(s, t', k);
    }
  }

  lemma MoveKeepsSupport(s: State, t: nat)
    requires FramesOk(s) && Enabled(s, Step(t)) && Top(s, t).MoveOut?
    ensures var f := Top(s, t);
            var pins := f.pins + ({f.dst} - {f.src});
            Supported(Advance(s, t).cells, {f.src} + pins, pins)
  {
    var u, f := Advance(s, t), Top(s, t);
    var pins := f.pins + ({f.dst} - {f.src});
    assert FrameAt(s, t, |s.threads[t]| - 1);
    MoveWrites(s.cells, f.dst, f.src);
    forall c | c in {f.src} + pins && c in u.cells && u.cells[c].home.Some?
      ensures Pinned(u.cells, pins, u.cells[c].home.value)
    {
      var q :| q in f.pins && q in s.cells && s.cells[q].ptr == Held(s.cells[c].home.value);
      assert u.cells[q] == s.cells[q];
    }
  }

  lemma StepNewFrame(s: State, t: nat)
    requires FramesOk(s) && CountsOk(s) && Enabled(s, Step(t))
    ensures var u, b := Advance(s, t), |s.threads[t]| - 1;
            |u.threads[t]| > b ==> FrameOk(u.objs, u.cells, u.threads[t][b])
  {
    var b, f := |s.threads[t]| - 1, Top(s, t);
    assert FrameAt(s, t, b);
    if f.MoveOut? {
      MoveKeepsSupport(s, t);
    } else if f.Release? {
      CarriedIsLive(s, t, b, f.o);
    }
  }

  lemma StepFrames(s: State, t: nat)
    requires Inv(s) && Enabled(s, Step(t))
    ensures FramesOk(Advance(s, t))
  {
    StepChanges(s, t);
    StepSparesOthers(s, t);
    StepSparesOwners(s, t);
    StepNewFrame(s, t);
    FramesGlue(s, Advance(s, t), t, |s.threads[t]| - 1);
  }

  lemma TopIsApart(s: State, t: nat)
    requires Disjoint(s) && t < |s.threads| && s.threads[t] != []
    ensures forall t', k | Kept(s, t, |s.threads[t]| - 1, t', k) ::
              !Conflict(s.threads[t'][k], Uses(Top(s, t)), Writes(Top(s, t)))
  {
    var b := |s.threads[t]| - 1;
    forall t', k | Kept(s, t, b, t', k)
      ensures !Conflict(s.threads[t'][k], Uses(Top(s, t)), Writes(Top(s, t)))
    {
      assert Apart(s, t, b, t', k);
      assert Apart(s, t', k, t, b);
    }
  }

  /** What a step leaves on top uses nothing the frame before it did not use. */
  lemma StepUses(s: State, t: nat)
    requires Enabled(s, Step(t))
    ensures var u, b, f := Advance(s, t), |s.threads[t]| - 1, Top(s, t);
            && (forall k | b <= k < |u.threads[t]| :: Uses(u.threads[t][k]) <= Uses(f) && Writes(u.threads[t][k]) <= Writes(f))
            && (forall k | b < k < |u.threads[t]| :: Uses(u.threads[t][k]) == {} && Writes(u.threads[t][k]) == {})
  {
  }

  lemma StepDisjoint(s: State, t: nat)
    requires Disjoint(s) && Enabled(s, Step(t))
    ensures Disjoint(Advance(s, t))
  {
    StepChanges(s, t);
    TopIsApart(s, t);
    StepUses(s, t);
    DisjointGlue(s, Advance(s, t), t, |s.threads[t]| - 1, Uses(Top(s, t)), Writes(Top(s, t)));
  }

  lemma StepSoleOwners(s: State, t: nat)
    requires Inv(s) && Enabled(s, Step(t))
    ensures SoleOwners(Advance(s, t))
  {
    var b := |s.threads[t]| - 1;
    StepChanges(s, t);
    StepSparesOwners(s, t);
    if Top(s, t).Release? {
      CarriedIsLive(s, t, b, Top(s, t).o);
    }
    SoleOwnersGlue(s, Advance(s, t), t, b);
  }

  lemma StepHomes(s: State, t: nat)
    requires HomesOk(s) && Enabled(s, Step(t))
    ensures HomesOk(Advance(s, t))
  {
    StepWrites(s, t);
  }

  /** The frame that excuses a raw pointer survives unless it is the one that moved. */
  lemma RawExcused(s: State, t: nat, c: CellId)
    requires Inv(s) && Enabled(s, Step(t)) && c in s.cells && s.cells[c].ptr.Raw?
    requires c !in Writes(Top(s, t))
    ensures exists t', k | 0 <= t' < |Advance(s, t).threads| && 0 <= k < |Advance(s, t).threads[t']| ::
              c in Writes(Advance(s, t).threads[t'][k])
  {
    var b, u := |s.threads[t]| - 1, Advance(s, t);
    StepChanges(s, t);
    var t', k :| 0 <= t' < |s.threads| && 0 <= k < |s.threads[t']| && c in Writes(s.threads[t'][k]);
    assert t' == t ==> k < b;
    KeptFrames(s, u, t, b, t', k);
  }

  lemma StepRaws(s: State, t: nat)
    requires Inv(s) && Enabled(s, Step(t))
    ensures RawsOk(Advance(s, t))
  {
    var b, u, f := |s.threads[t]| - 1, Advance(s, t), Top(s, t);
    StepWrites(s, t);
    assert FrameAt(s, t, b);
    forall c | c in u.cells && u.cells[c].ptr.Raw?
      ensures exists t', k | 0 <= t' < |u.threads| && 0 <= k < |u.threads[t']| :: c in Writes(u.threads[t'][k])
    {
      if c !in Writes(f) {
        RawExcused(s, t, c);
      } else {
        assert c in Writes(u.threads[t][b]);
      }
    }
  }

  lemma StepCarried(s: State, t: nat, o: ObjId)
    requires Enabled(s, Step(t))
    ensures var u := Advance(s, t); var b := |s.threads[t]| - 1;
            InFlight(u.threads, o) + (if Carries(Top(s, t), o) then 1 else 0) ==
            InFlight(s.threads, o) + (if |u.threads[t]| > b && Carries(u.threads[t][b], o) then 1 else 0)
  {
    var u, b := Advance(s, t), |s.threads[t]| - 1;
    InFlightAt(s.threads, t, u.threads[t], o);
    assert s.threads[t] == Rest(s, t) + [Top(s, t)];
    CarriedPush(Rest(s, t), Top(s, t), o);
    StepChanges(s, t);
    if |u.threads[t]| > b {
      assert u.threads[t] == u.threads[t][..b] + [u.threads[t][b]];
      CarriedPush(u.threads[t][..b], u.threads[t][b], o);
    } else {
      assert u.threads[t] == u.threads[t][..b];
    }
  }

  lemma StepHeld(s: State, t: nat, o: ObjId)
    requires FramesOk(s) && Enabled(s, Step(t))
    ensures var u, f := Advance(s, t), Top(s, t);
            |HeldBy(u.cells, o)| == |HeldBy(s.cells, o)|
              + (if (f.Adopt? && f.o == o) || (f.Store? && f.p == Some(o)) then 1 else 0)
              - (if f.Store? && f.dst in s.cells && s.cells[f.dst].ptr == Held(o) then 1 else 0)
  {
    var f := Top(s, t);
    assert FrameAt(s, t, |s.threads[t]| - 1);
    match f {
      case Adopt(c, x) => HeldAfter(s.cells, c, Cell(Held(x), s.cells[c].home), o);
      case Store(p, dst, _) =>
        HeldAfter(s.cells, dst, s.cells[dst].(ptr := if p.Some? then Held(p.value) else Null), o);
      case MoveNull(src, _) => HeldAfter(s.cells, src, s.cells[src].(ptr := Null), o);
      case MoveOut(dst, src, _) =>
        var p := s.cells[src].ptr;
        HeldAfter(s.cells, dst, s.cells[dst].(ptr := p), o);
        if dst != src && !p.Null? {
          var mid := SetPtr(s.cells, dst, p);
          HeldAfter(mid, src, mid[src].(ptr := Raw(p.o)), o);
        }
      case _ =>
    }
  }

  lemma StepReferences(s: State, t: nat, o: ObjId)
    requires FramesOk(s) && Enabled(s, Step(t))
    ensures var f := Top(s, t);
            References(Advance(s, t), o) == References(s, o)
              + (if (f.Adopt? || f.Inc?) && f.o == o then 1 else 0)
              - (if f.Release? && f.o == o then 1 else 0)
  {
    assert FrameAt(s, t, |s.threads[t]| - 1);
    StepCarried(s, t, o);
    StepHeld(s, t, o);
  }

  lemma CountsUp(s: State, u: State, o: ObjId)
    requires CountsOk(s) && o in s.objs && (s.objs[o].phase.Fresh? || s.objs[o].phase.Live?)
    requires u.objs == Incremented(s.objs, o)
    requires forall x :: References(u, x) == References(s, x) + (if x == o then 1 else 0)
    ensures CountsOk(u)
  {
  }

  lemma CountsDown(s: State, u: State, o: ObjId)
    requires CountsOk(s) && o in s.objs && s.objs[o].phase.Live?
    requires u.objs == Decremented(s.objs, o)
    requires forall x :: References(u, x) == References(s, x) - (if x == o then 1 else 0)
    ensures CountsOk(u)
  {
  }

  lemma CountsLevel(s: State, u: State)
    requires CountsOk(s) && u.objs.Keys == s.objs.Keys
    requires forall o | o in s.objs :: u.objs[o] == s.objs[o] ||
               (s.objs[o].phase.Dying? && u.objs[o] == s.objs[o].(phase := Freed))
    requires forall x :: References(u, x) == References(s, x)
    ensures CountsOk(u)
  {
  }

  lemma StepCounts(s: State, t: nat)
    requires Inv(s) && Enabled(s, Step(t))
    ensures CountsOk(Advance(s, t))
  {
    var u, f := Advance(s, t), Top(s, t);
    assert FrameAt(s, t, |s.threads[t]| - 1);
    forall o
      ensures References(u, o) == References(s, o)
                + (if (f.Adopt? || f.Inc?) && f.o == o then 1 else 0)
                - (if f.Release? && f.o == o then 1 else 0)
    {
      StepReferences(s, t, o);
    }
    if f.Release? {
      CarriedIsLive(s, t, |s.threads[t]| - 1, f.o);
      CountsDown(s, u, f.o);
    } else if f.Adopt? || f.Inc? {
      if f.Inc? && !f.isNew {
        PinnedIsLive(s, f.uses, f.o);
      }
      CountsUp(s, u, f.o);
    } else {
      CountsLevel(s, u);
    }
  }

  lemma StepInv(s: State, t: nat)
    requires Inv(s) && Enabled(s, Step(t))
    ensures Inv(Advance(s, t))
  {
    StepFrames(s, t);
    StepDisjoint(s, t);
    StepSoleOwners(s, t);
    StepCounts(s, t);
    StepHomes(s, t);
    StepRaws(s, t);
  }

  // ----- Starting an operation

  /** Thread `t`, idle in `s`, starts an operation that uses `uses` and writes `writes`. */
  ghost predicate Begins(s: State, u: State, t: nat, uses: set<CellId>, writes: set<CellId>) {
    && IdleThread(s, t) && Changes(s, u, t, 0) && |u.threads[t]| <= 2
    && (forall t', k | Kept(s, t, 0, t', k) :: !Conflict(s.threads[t'][k], uses, writes))
    && (forall o | o in s.objs :: o in u.objs && u.objs[o] == s.objs[o])
    && (forall c | c in s.cells && c !in writes :: c in u.cells && u.cells[c] == s.cells[c])
    && (forall k | 0 <= k < |u.threads[t]| :: FrameOk(u.objs, u.cells, u.threads[t][k]))
    && (forall k | 0 <= k < |u.threads[t]| :: Uses(u.threads[t][k]) <= uses && Writes(u.threads[t][k]) <= writes)
    && (|u.threads[t]| == 2 ==> u.threads[t][1].Release?)
  }

  lemma BeginSparesFrame(s: State, u: State, t: nat, uses: set<CellId>, writes: set<CellId>, t': nat, k: nat)
    requires FramesOk(s) && Begins(s, u, t, uses, writes) && Kept(s, t, 0, t', k)
    ensures forall c | c in Uses(s.threads[t'][k]) :: c in s.cells && c in u.cells && u.cells[c] == s.cells[c]
    ensures forall o | OwnsObject(s.threads[t'][k], o) :: o in u.objs && o in s.objs && u.objs[o].phase == s.objs[o].phase
  {
    var f := s.threads[t'][k];
    assert FrameAt(s, t', k);
    forall c | c in Uses(f)
      ensures c !in writes
    {
      assert c !in Uses(f) * writes;
    }
  }

  lemma BeginFrames(s: State, u: State, t: nat, uses: set<CellId>, writes: set<CellId>)
    requires FramesOk(s) && Disjoint(s) && Begins(s, u, t, uses, writes)
    ensures FramesOk(u) && Disjoint(u)
  {
    forall t', k | Kept(s, t, 0, t', k)
      ensures forall c | c in Uses(s.threads[t'][k]) :: c in s.cells && c in u.cells && u.cells[c] == s.cells[c]
      ensures forall o | OwnsObject(s.threads[t'][k], o) ::
                o in u.objs && o in s.objs && u.objs[o].phase == s.objs[o].phase
    {
      BeginSparesFrame(s, u, t, uses, writes, t', k);
    }
    FramesGlue(s, u, t, 0);
    DisjointGlue(s, u, t, 0, uses, writes);
  }
  lemma BeginOwners(s: State, u: State, t: nat)
    requires Inv(s) && IdleThread(s, t) && Changes(s, u, t, 0) && |u.threads[t]| <= 2
    requires forall k, o | 0 <= k < |u.threads[t]| && OwnsObject(u.threads[t][k], o) :: k == 0 && o !in s.objs
    ensures SoleOwners(u)
  {
    forall k, o | 0 <= k < |u.threads[t]| && OwnsObject(u.threads[t][k], o)
      ensures k == 0 && forall t', k' | Kept(s, t, 0, t', k') :: !OwnsObject(s.threads[t'][k'], o)
    {
      assert o !in s.objs;
      forall t', k' | Kept(s, t, 0, t', k')
        ensures !OwnsObject(s.threads[t'][k'], o)
      {
        assert FrameAt(s, t', k');
      }
    }
    SoleOwnersGlue(s, u, t, 0);
  }

  predicate OwnsNothing(f: Frame) {
    f.Release? || f.Store? || f.MoveOut? || (f.Inc? && !f.isNew)
  }

  lemma BeginUnowned(s: State, u: State, t: nat)
    requires Inv(s) && IdleThread(s, t) && Changes(s, u, t, 0) && |u.threads[t]| <= 2
    requires forall k | 0 <= k < |u.threads[t]| :: OwnsNothing(u.threads[t][k])
    ensures SoleOwners(u)
  {
    forall k, o | 0 <= k < |u.threads[t]|
      ensures !OwnsObject(u.threads[t][k], o)
    {
      assert OwnsNothing(u.threads[t][k]);
    }
    BeginOwners(s, u, t);
  }

  lemma BeginRaws(s: State, u: State, t: nat)
    requires Inv(s) && IdleThread(s, t) && Changes(s, u, t, 0)
    requires forall c | c in u.cells && u.cells[c].ptr.Raw? ::
               (c in s.cells && s.cells[c].ptr.Raw?) || (u.threads[t] != [] && c in Writes(u.threads[t][0]))
    ensures RawsOk(u)
  {
    forall c | c in u.cells && u.cells[c].ptr.Raw?
      ensures exists t', k | 0 <= t' < |u.threads| && 0 <= k < |u.threads[t']| :: c in Writes(u.threads[t'][k])
    {
      if c in s.cells && s.cells[c].ptr.Raw? {
        var t', k :| 0 <= t' < |s.threads| && 0 <= k < |s.threads[t']| && c in Writes(s.threads[t'][k]);
        KeptFrames(s, u, t, 0, t', k);
      } else {
        assert c in Writes(u.threads[t][0]);
      }
    }
  }

  /** A cell no operation is in the way of holds a counted reference or nothing. */
  lemma AvailableIsNotRaw(s: State, uses: set<CellId>, writes: set<CellId>, c: CellId)
    requires RawsOk(s) && Available(s, uses, writes) && c in uses
    ensures !s.cells[c].ptr.Raw?
  {
    forall t, k | 0 <= t < |s.threads| && 0 <= k < |s.threads[t]|
      ensures c !in Writes(s.threads[t][k])
    {
      assert !Conflict(s.threads[t][k], uses, writes);
      assert c !in Writes(s.threads[t][k]) * uses;
    }
  }

  lemma BeginCarried(s: State, u: State, t: nat, o: ObjId)
    requires IdleThread(s, t) && |u.threads| == |s.threads| && u.threads == s.threads[t := u.threads[t]]
    ensures InFlight(u.threads, o) == InFlight(s.threads, o) + Carried(u.threads[t], o)
  {
    InFlightAt(s.threads, t, u.threads[t], o);
  }

  /** Objects appear only as new ones, and no reference is gained or lost. */
  lemma SameReferences(s: State, u: State)
    requires CountsOk(s) && forall o :: References(u, o) == References(s, o)
    requires forall o | o in s.objs :: o in u.objs && u.objs[o] == s.objs[o]
    requires forall o | o in u.objs :: o in s.objs || u.objs[o] == Object(0, Fresh)
    ensures CountsOk(u)
  {
  }

  lemma CopyBegins(s: State, t: nat, dst: CellId, src: CellId, pins: set<CellId>)
    requires FramesOk(s) && RawsOk(s) && Enabled(s, StartCopy(t, dst, src, pins))
    ensures var u := Start(s, StartCopy(t, dst, src, pins));
            u == s || Begins(s, u, t, {dst, src} + pins, {dst})
  {
    var uses := {dst, src} + pins;
    AvailableIsNotRaw(s, uses, {dst}, dst);
    AvailableIsNotRaw(s, uses, {dst}, src);
    assert s.cells[src].ptr.Held? ==> Pinned(s.cells, uses, s.cells[src].ptr.o);
  }

  lemma CopyInv(s: State, t: nat, dst: CellId, src: CellId, pins: set<CellId>)
    requires Inv(s) && Enabled(s, StartCopy(t, dst, src, pins))
    ensures Inv(Start(s, StartCopy(t, dst, src, pins)))
  {
    var u := Start(s, StartCopy(t, dst, src, pins));
    CopyBegins(s, t, dst, src, pins);
    if u != s {
      BeginFrames(s, u, t, {dst, src} + pins, {dst});
      BeginOwners(s, u, t);
      BeginRaws(s, u, t);
      forall o ensures References(u, o) == References(s, o) {
        BeginCarried(s, u, t, o);
      }
      SameReferences(s, u);
    }
  }

  lemma ResetBegins(s: State, t: nat, dst: CellId, pins: set<CellId>)
    requires FramesOk(s) && RawsOk(s) && Enabled(s, StartReset(t, dst, pins))
    ensures var u := Start(s, StartReset(t, dst, pins));
            u == s || Begins(s, u, t, {dst} + pins, {dst})
  {
    AvailableIsNotRaw(s, {dst} + pins, {dst}, dst);
  }

  lemma ResetInv(s: State, t: nat, dst: CellId, pins: set<CellId>)
    requires Inv(s) && Enabled(s, StartReset(t, dst, pins))
    ensures Inv(Start(s, StartReset(t, dst, pins)))
  {
    var u := Start(s, StartReset(t, dst, pins));
    ResetBegins(s, t, dst, pins);
    if u != s {
      BeginFrames(s, u, t, {dst} + pins, {dst});
      BeginOwners(s, u, t);
      BeginRaws(s, u, t);
      forall o ensures References(u, o) == References(s, o) {
        BeginCarried(s, u, t, o);
      }
      SameReferences(s, u);
    }
  }

  lemma MembersSupported(s: State, o: ObjId, members: set<CellId>, used: set<CellId>, pins: set<CellId>)
    requires NewObject(s, o, members) && used <= s.cells.Keys && pins <= s.cells.Keys
    requires Supported(s.cells, used, pins)
    ensures Supported(WithMembers(s.cells, o, members), used, pins)
  {
    var cells := WithMembers(s.cells, o, members);
    forall c | c in used && c in cells && cells[c].home.Some?
      ensures Pinned(cells, pins, cells[c].home.value)
    {
      var q :| q in pins && q in s.cells && s.cells[q].ptr == Held(s.cells[c].home.value);
      assert cells[q] == s.cells[q];
    }
  }

  lemma ResetNewBegins(s: State, t: nat, o: ObjId, members: set<CellId>, dst: CellId, pins: set<CellId>)
    requires FramesOk(s) && RawsOk(s) && Enabled(s, StartResetNew(t, o, members, dst, pins))
    ensures Begins(s, Start(s, StartResetNew(t, o, members, dst, pins)), t, {dst} + pins, {dst})
  {
    AvailableIsNotRaw(s, {dst} + pins, {dst}, dst);
    MembersSupported(s, o, members, {dst} + pins, {dst} + pins);
  }

  lemma ResetNewInv(s: State, t: nat, o: ObjId, members: set<CellId>, dst: CellId, pins: set<CellId>)
    requires Inv(s) && Enabled(s, StartResetNew(t, o, members, dst, pins))
    ensures Inv(Start(s, StartResetNew(t, o, members, dst, pins)))
  {
    var u := Start(s, StartResetNew(t, o, members, dst, pins));
    ResetNewBegins(s, t, o, members, dst, pins);
    BeginFrames(s, u, t, {dst} + pins, {dst});
    BeginOwners(s, u, t);
    BeginRaws(s, u, t);
    forall x ensures References(u, x) == References(s, x) {
      BeginCarried(s, u, t, x);
      HeldWithMembers(s.cells, o, members, x);
    }
    SameReferences(s, u);
  }

  /** A cell nobody has seen yet is in nobody's way. */
  lemma NewCellIsFree(s: State, c: CellId, uses: set<CellId>, writes: set<CellId>)
    requires FramesOk(s) && c !in s.cells && Available(s, uses, writes)
    ensures forall t, k | 0 <= t < |s.threads| && 0 <= k < |s.threads[t]| ::
              !Conflict(s.threads[t][k], {c} + uses, {c} + writes)
  {
    forall t, k | 0 <= t < |s.threads| && 0 <= k < |s.threads[t]|
      ensures !Conflict(s.threads[t][k], {c} + uses, {c} + writes)
    {
      var f := s.threads[t][k];
      assert FrameAt(s, t, k) && !Conflict(f, uses, writes);
      assert Writes(f) * ({c} + uses) == Writes(f) * uses;
      assert Uses(f) * ({c} + writes) == Uses(f) * writes;
    }
  }

  lemma ConstructBegins(s: State, t: nat, o: ObjId, members: set<CellId>, c: CellId)
    requires FramesOk(s) && RawsOk(s) && Enabled(s, StartConstruct(t, o, members, c))
    ensures Begins(s, Start(s, StartConstruct(t, o, members, c)), t, {c}, {c})
  {
    NewCellIsFree(s, c, {}, {});
    assert {c} + {} == {c};
  }

  lemma ConstructReferences(s: State, t: nat, o: ObjId, members: set<CellId>, c: CellId, x: ObjId)
    requires Enabled(s, StartConstruct(t, o, members, c))
    ensures References(Start(s, StartConstruct(t, o, members, c)), x) == References(s, x)
  {
    var u := Start(s, StartConstruct(t, o, members, c));
    BeginCarried(s, u, t, x);
    HeldWithMembers(s.cells, o, members, x);
    HeldAfter(WithMembers(s.cells, o, members), c, Cell(Raw(o), None), x);
  }

  lemma ConstructInv(s: State, t: nat, o: ObjId, members: set<CellId>, c: CellId)
    requires Inv(s) && Enabled(s, StartConstruct(t, o, members, c))
    ensures Inv(Start(s, StartConstruct(t, o, members, c)))
  {
    var u := Start(s, StartConstruct(t, o, members, c));
    ConstructBegins(s, t, o, members, c);
    BeginFrames(s, u, t, {c}, {c});
    BeginOwners(s, u, t);
    BeginRaws(s, u, t);
    forall x ensures References(u, x) == References(s, x) {
      ConstructReferences(s, t, o, members, c, x);
    }
    SameReferences(s, u);
  }

  lemma MoveConstructBegins(s: State, t: nat, c: CellId, src: CellId, pins: set<CellId>)
    requires FramesOk(s) && RawsOk(s) && Enabled(s, StartMoveConstruct(t, c, src, pins))
    ensures Begins(s, Start(s, StartMoveConstruct(t, c, src, pins)), t, {c, src} + pins, {c, src})
  {
    var u := Start(s, StartMoveConstruct(t, c, src, pins));
    AvailableIsNotRaw(s, {src} + pins, {src}, src);
    NewCellIsFree(s, c, {src} + pins, {src});
    assert {c} + ({src} + pins) == {c, src} + pins && {c} + {src} == {c, src};
    forall x | x in {c, src} + pins && x in u.cells && u.cells[x].home.Some?
      ensures Pinned(u.cells, pins, u.cells[x].home.value)
    {
      var q :| q in pins && q in s.cells && s.cells[q].ptr == Held(s.cells[x].home.value);
      assert u.cells[q] == s.cells[q];
    }
  }

  lemma MoveConstructInv(s: State, t: nat, c: CellId, src: CellId, pins: set<CellId>)
    requires Inv(s) && Enabled(s, StartMoveConstruct(t, c, src, pins))
    ensures Inv(Start(s, StartMoveConstruct(t, c, src, pins)))
  {
    var u := Start(s, StartMoveConstruct(t, c, src, pins));
    MoveConstructBegins(s, t, c, src, pins);
    BeginFrames(s, u, t, {c, src} + pins, {c, src});
    BeginOwners(s, u, t);
    BeginRaws(s, u, t);
    forall o ensures References(u, o) == References(s, o) {
      BeginCarried(s, u, t, o);
      HeldAfter(s.cells, c, Cell(Null, None), o);
    }
    SameReferences(s, u);
  }

  lemma MoveAssignBegins(s: State, t: nat, dst: CellId, src: CellId, pins: set<CellId>)
    requires FramesOk(s) && RawsOk(s) && Enabled(s, StartMoveAssign(t, dst, src, pins))
    ensures Begins(s, Start(s, StartMoveAssign(t, dst, src, pins)), t, {dst, src} + pins, {dst, src})
  {
    var u := Start(s, StartMoveAssign(t, dst, src, pins));
    AvailableIsNotRaw(s, {dst, src} + pins, {dst, src}, src);
    AvailableIsNotRaw(s, {dst, src} + pins, {dst, src}, dst);
    forall x | x in {dst, src} + pins && x in u.cells && u.cells[x].home.Some?
      ensures Pinned(u.cells, pins, u.cells[x].home.value)
    {
      var q :| q in pins && q in s.cells && s.cells[q].ptr == Held(s.cells[x].home.value);
      assert u.cells[q] == s.cells[q];
    }
  }

  lemma MoveAssignReferences(s: State, t: nat, dst: CellId, src: CellId, pins: set<CellId>, o: ObjId)
    requires FramesOk(s) && RawsOk(s) && Enabled(s, StartMoveAssign(t, dst, src, pins))
    ensures References(Start(s, StartMoveAssign(t, dst, src, pins)), o) == References(s, o)
  {
    var u, was := Start(s, StartMoveAssign(t, dst, src, pins)), s.cells[dst].ptr;
    AvailableIsNotRaw(s, {dst, src} + pins, {dst, src}, dst);
    BeginCarried(s, u, t, o);
    var first := [MoveOut(dst, src, pins)];
    assert first == [] + first;
    CarriedPush([], MoveOut(dst, src, pins), o);
    if was.Held? {
      HeldAfter(s.cells, dst, s.cells[dst].(ptr := Raw(was.o)), o);
      CarriedPush(first, Release(was.o), o);
    } else {
      assert u.threads[t] == first;
    }
  }

  lemma MoveAssignInv(s: State, t: nat, dst: CellId, src: CellId, pins: set<CellId>)
    requires Inv(s) && Enabled(s, StartMoveAssign(t, dst, src, pins))
    ensures Inv(Start(s, StartMoveAssign(t, dst, src, pins)))
  {
    var u := Start(s, StartMoveAssign(t, dst, src, pins));
    MoveAssignBegins(s, t, dst, src, pins);
    BeginFrames(s, u, t, {dst, src} + pins, {dst, src});
    BeginUnowned(s, u, t);
    BeginRaws(s, u, t);
    forall o ensures References(u, o) == References(s, o) {
      MoveAssignReferences(s, t, dst, src, pins, o);
    }
    SameReferences(s, u);
  }

  lemma DestroyBegins(s: State, t: nat, c: CellId)
    requires FramesOk(s) && RawsOk(s) && Enabled(s, StartDestroy(t, c))
    ensures Begins(s, Start(s, StartDestroy(t, c)), t, {c}, {c})
  {
  }

  lemma DestroyInv(s: State, t: nat, c: CellId)
    requires Inv(s) && Enabled(s, StartDestroy(t, c))
    ensures Inv(Start(s, StartDestroy(t, c)))
  {
    var u := Start(s, StartDestroy(t, c));
    DestroyBegins(s, t, c);
    AvailableIsNotRaw(s, {c}, {c}, c);
    BeginFrames(s, u, t, {c}, {c});
    BeginUnowned(s, u, t);
    BeginRaws(s, u, t);
    forall o ensures References(u, o) == References(s, o) {
      BeginCarried(s, u, t, o);
      HeldRemoved(s.cells, c, o);
    }
    SameReferences(s, u);
  }

  // ----- A destructor destroys one member

  /** No frame uses a member that is about to be destroyed, and all frames stay where they are. */
  lemma MemberUnused(s: State, t: nat, c: CellId)
    requires Inv(s) && Enabled(s, DestroyMember(t, c))
    ensures var u, b := Start(s, DestroyMember(t, c)), |s.threads[t]|;
            forall t', k | 0 <= t' < |s.threads| && 0 <= k < |s.threads[t']| ::
              && c !in Uses(s.threads[t'][k]) && c !in Writes(s.threads[t'][k]) && FrameAt(s, t', k)
              && Kept(s, t, b, t', k) && t' < |u.threads| && k < |u.threads[t']| && u.threads[t'][k] == s.threads[t'][k]
  {
    var u, b := Start(s, DestroyMember(t, c)), |s.threads[t]|;
    assert FrameAt(s, t, b - 1);
    assert u.threads[t][..b] == s.threads[t];
    forall t', k | 0 <= t' < |s.threads| && 0 <= k < |s.threads[t']|
      ensures c !in Uses(s.threads[t'][k]) && c !in Writes(s.threads[t'][k])
      ensures FrameAt(s, t', k)
      ensures Kept(s, t, b, t', k) && t' < |u.threads| && k < |u.threads[t']| && u.threads[t'][k] == s.threads[t'][k]
    {
      DyingCellsUnused(s, c, t', k);
      assert FrameAt(s, t', k);
    }
  }

  lemma MemberFrames(s: State, t: nat, c: CellId)
    requires Inv(s) && Enabled(s, DestroyMember(t, c))
    ensures var u := Start(s, DestroyMember(t, c)); FramesOk(u) && Disjoint(u) && SoleOwners(u) && RawsOk(u)
    ensures !s.cells[c].ptr.Raw?
  {
    var u, b := Start(s, DestroyMember(t, c)), |s.threads[t]|;
    MemberUnused(s, t, c);
    assert u.threads[t][..b] == s.threads[t];
    FramesGlue(s, u, t, b);
    DisjointGlue(s, u, t, b, {}, {});
    SoleOwnersGlue(s, u, t, b);
  }
  lemma MemberInv(s: State, t: nat, c: CellId)
    requires Inv(s) && Enabled(s, DestroyMember(t, c))
    ensures Inv(Start(s, DestroyMember(t, c)))
  {
    var u := Start(s, DestroyMember(t, c));
    MemberFrames(s, t, c);
    forall o ensures References(u, o) == References(s, o) {
      InFlightAt(s.threads, t, u.threads[t], o);
      HeldRemoved(s.cells, c, o);
      if s.cells[c].ptr.Held? {
        CarriedPush(s.threads[t], Release(s.cells[c].ptr.o), o);
      } else {
        assert s.threads[t] + [] == s.threads[t];
      }
    }
    SameReferences(s, u);
  }

  lemma NewCellInv(s: State, c: CellId)
    requires Inv(s) && Enabled(s, NewCell(c))
    ensures Inv(Start(s, NewCell(c)))
  {
    var u := Start(s, NewCell(c));
    forall t, k
      ensures FrameAt(u, t, k)
    {
      if 0 <= t < |s.threads| && 0 <= k < |s.threads[t]| {
        assert FrameAt(s, t, k);
        FrameStable(s, u, s.threads[t][k]);
      }
    }
    forall t, k, t', k' ensures Apart(u, t, k, t', k') { assert Apart(s, t, k, t', k'); }
    forall t, k, t', k', o ensures OneOwner(u, t, k, t', k', o) { assert OneOwner(s, t, k, t', k', o); }
    forall o ensures References(u, o) == References(s, o) {
      HeldAfter(s.cells, c, Cell(Null, None), o);
    }
    SameReferences(s, u);
  }

  lemma InvKept(s: State, a: Action)
    requires Inv(s) && Enabled(s, a)
    ensures Inv(Do(s, a))
  {
    match a {
      case NewCell(c) => NewCellInv(s, c);
      case StartConstruct(t, o, members, c) => ConstructInv(s, t, o, members, c);
      case StartCopy(t, dst, src, pins) => CopyInv(s, t, dst, src, pins);
      case StartReset(t, dst, pins) => ResetInv(s, t, dst, pins);
      case StartResetNew(t, o, members, dst, pins) => ResetNewInv(s, t, o, members, dst, pins);
      case StartMoveConstruct(t, c, src, pins) => MoveConstructInv(s, t, c, src, pins);
      case StartMoveAssign(t, dst, src, pins) => MoveAssignInv(s, t, dst, src, pins);
      case StartDestroy(t, c) => DestroyInv(s, t, c);
      case DestroyMember(t, c) => MemberInv(s, t, c);
      case Step(t) => StepInv(s, t);
    }
  }

  lemma {:induction false} InvReached(s: State, acts: seq<Action>, u: State)
    requires Inv(s) && Reaches(s, acts, u)
    ensures Inv(u)
    decreases |acts|
  {
    if acts != [] {
      InvKept(s, acts[0]);
      InvReached(Do(s, acts[0]), acts[1..], u);
    }
  }

  // ----- What every run keeps

  /** In every interleaving the count is the number of references held plus those in flight, an
      object is live exactly while it has one, and it is being destroyed by one thread at most. */
  lemma CountsAreExact(n: nat, acts: seq<Action>, u: State)
    requires Reaches(Init(n), acts, u)
    ensures forall o | o in u.objs ::
              && u.objs[o].count == References(u, o)
              && (u.objs[o].phase.Live? <==> u.objs[o].count >= 1)
    ensures forall t, k, t', k', o | 0 <= t < |u.threads| && 0 <= k < |u.threads[t]| &&
              0 <= t' < |u.threads| && 0 <= k' < |u.threads[t']| &&
              u.threads[t][k] == Destroying(o) && u.threads[t'][k'] == Destroying(o) :: t == t' && k == k'
  {
    InitInv(n);
    InvReached(Init(n), acts, u);
    forall t, k, t', k', o | 0 <= t < |u.threads| && 0 <= k < |u.threads[t]| &&
      0 <= t' < |u.threads| && 0 <= k' < |u.threads[t']| &&
      u.threads[t][k] == Destroying(o) && u.threads[t'][k'] == Destroying(o)
      ensures t == t' && k == k'
    {
      assert OneOwner(u, t, k, t', k', o);
    }
  }

  /** The memory an action reads or writes: counts, and the objects around the cells. */
  predicate TouchesCell(s: State, a: Action, c: CellId) {
    match a
    case Step(t) => t < |s.threads| && s.threads[t] != [] && c in Uses(Top(s, t))
    case StartCopy(_, dst, src, _) => c == dst || c == src
    case StartReset(_, dst, _) => c == dst
    case StartResetNew(_, _, _, dst, _) => c == dst
    case StartMoveConstruct(_, _, src, _) => c == src
    case StartMoveAssign(_, dst, src, _) => c == dst || c == src
    case StartDestroy(_, x) => c == x
    case DestroyMember(_, x) => c == x
    case _ => false
  }

  predicate TouchesCount(s: State, a: Action, o: ObjId) {
    a.Step? && a.t < |s.threads| && s.threads[a.t] != [] &&
    var f := Top(s, a.t);
    (f.Adopt? || f.Inc? || f.Release? || f.Destroying?) && f.o == o
  }

  lemma TouchedCountIsSafe(s: State, a: Action, o: ObjId)
    requires FramesOk(s) && CountsOk(s) && Enabled(s, a) && TouchesCount(s, a, o)
    ensures o in s.objs && !s.objs[o].phase.Freed?
    ensures Top(s, a.t).Release? ==> s.objs[o].count >= 1
  {
    var b := |s.threads[a.t]| - 1;
    var f := s.threads[a.t][b];
    assert FrameAt(s, a.t, b);
    if f.Release? {
      CarriedIsLive(s, a.t, b, f.o);
    } else if f.Inc? && !f.isNew {
      PinnedIsLive(s, f.uses, f.o);
    }
  }

  predicate CellIsSafe(s: State, c: CellId) {
    c in s.cells &&
    (s.cells[c].home.Some? ==>
       s.cells[c].home.value in s.objs && !s.objs[s.cells[c].home.value].phase.Freed?)
  }

  lemma TouchedCellIsSafe(s: State, a: Action, c: CellId)
    requires FramesOk(s) && HomesOk(s) && Enabled(s, a) && TouchesCell(s, a, c)
    ensures CellIsSafe(s, c)
  {
    if a.Step? {
      assert FrameAt(s, a.t, |s.threads[a.t]| - 1);
    }
  }

  /** No action of any run touches freed memory, and the assertion in dec_ref never fails. */
  lemma NothingFreedIsTouched(n: nat, acts: seq<Action>, s: State, a: Action)
    requires Reaches(Init(n), acts, s) && Enabled(s, a)
    ensures forall c | TouchesCell(s, a, c) :: CellIsSafe(s, c)
    ensures forall o | TouchesCount(s, a, o) ::
              o in s.objs && !s.objs[o].phase.Freed? && (Top(s, a.t).Release? ==> s.objs[o].count >= 1)
  {
    assert FramesOk(s) && HomesOk(s) && CountsOk(s) by {
      InitInv(n);
      InvReached(Init(n), acts, s);
    }
    forall c | TouchesCell(s, a, c) ensures CellIsSafe(s, c) {
      TouchedCellIsSafe(s, a, c);
    }
    forall o | TouchesCount(s, a, o)
      ensures o in s.objs && !s.objs[o].phase.Freed? && (Top(s, a.t).Release? ==> s.objs[o].count >= 1)
    {
      TouchedCountIsSafe(s, a, o);
    }
  }

  function Age(p: Phase): nat {
    match p
    case Fresh => 0
    case Live => 1
    case Dying => 2
    case Freed => 3
  }

  lemma AgeKept(s: State, a: Action, o: ObjId)
    requires Inv(s) && Enabled(s, a) && o in s.objs
    ensures o in Do(s, a).objs && Age(s.objs[o].phase) <= Age(Do(s, a).objs[o].phase)
    ensures s.objs[o].phase.Freed? ==> Do(s, a).objs[o] == s.objs[o]
  {
    if a.Step? {
      var b := |s.threads[a.t]| - 1;
      var f := s.threads[a.t][b];
      assert FrameAt(s, a.t, b);
      if f.Release? {
        CarriedIsLive(s, a.t, b, f.o);
      } else if f.Inc? && !f.isNew {
        PinnedIsLive(s, f.uses, f.o);
      }
    }
  }

  /** An object only ever goes from new to live to dying to freed, so it is deleted at most once
      and never comes back, whatever follows. */
  lemma {:induction false} ObjectsOnlyAge(s: State, acts: seq<Action>, u: State, o: ObjId)
    requires Inv(s) && Reaches(s, acts, u) && o in s.objs
    ensures o in u.objs && Age(s.objs[o].phase) <= Age(u.objs[o].phase)
    ensures s.objs[o].phase.Freed? ==> u.objs[o] == s.objs[o]
    decreases |acts|
  {
    if acts != [] {
      InvKept(s, acts[0]);
      AgeKept(s, acts[0], o);
      ObjectsOnlyAge(Do(s, acts[0]), acts[1..], u, o);
    }
  }
}
