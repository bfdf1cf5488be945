/**
 What the operations on handles leave behind: whatever other threads do meanwhile, a copy holds what
 its source held, a reset handle is null or holds its new object, and a move hands the reference on.
 */
module RefCountingEffects {

  import opened Prelude
  import opened RefCounting
  import opened RefCountingSafety
  import opened RefCountingMoves

  /** An operation on a handle, as opposed to the releases and destructors it leads to. */
  predicate Acting(f: Frame) {
    f.Adopt? || f.Inc? || f.Store? || f.MoveOut? || f.MoveNull?
  }

  predicate Busy(u: State, t: nat) {
    t < |u.threads| && u.threads[t] != [] && Acting(u.threads[t][0])
  }

  /** A run of any threads that ends as soon as the operation of thread `t` is over. */
  predicate Finishes(u: State, acts: seq<Action>, w: State, t: nat)
    decreases |acts|
  {
    if !Busy(u, t) then acts == [] && u == w
    else acts != [] && Enabled(u, acts[0]) && Finishes(Do(u, acts[0]), acts[1..], w, t)
  }

  /** What the operation at `f` is going to leave in cell `c`. */
  function Aim(f: Frame, cells: map<CellId, Cell>, c: CellId): Ref
    requires c in cells && Acting(f) && (f.MoveOut? ==> f.src in cells)
  {
    match f
    case Adopt(dst, o) => if c == dst then Held(o) else cells[c].ptr
    case Inc(o, _, dst, _) => if c == dst then Held(o) else cells[c].ptr
    case Store(p, dst, _) => if c != dst then cells[c].ptr else if p.Some? then Held(p.value) else Null
    case MoveOut(dst, src, _) => if c == src then Null else if c == dst then cells[src].ptr else cells[c].ptr
    case MoveNull(src, _) => if c == src then Null else cells[c].ptr
  }

  // ----- Others leave the cells of an operation alone

  /** The next action is the step that takes the operation of `t` further. */
  predicate Advances(u: State, a: Action, t: nat) {
    a == Step(t) && t < |u.threads| && |u.threads[t]| == 1
  }

  lemma StaysPending(u: State, a: Action, t: nat, f: Frame)
    requires Enabled(u, a) && Pending(u, t, f) && !Advances(u, a, t)
    ensures Pending(Do(u, a), t, f)
  {
    if a.Step? && a.t == t {
      StepChanges(u, t);
      assert Do(u, a).threads[t][..|u.threads[t]| - 1][0] == u.threads[t][0];
    }
  }

  lemma CellsSpared(u: State, a: Action, t: nat, f: Frame, c: CellId)
    requires Inv(u) && Enabled(u, a) && Pending(u, t, f) && !Advances(u, a, t) && c in Uses(f)
    ensures c in u.cells && Intact(Do(u, a), c, u.cells[c])
  {
    assert FrameAt(u, t, 0);
    if a.Step? {
      assert Kept(u, a.t, |u.threads[a.t]| - 1, t, 0);
      StepSparesOthers(u, a.t);
    } else {
      StartSpares(u, a, t, f, c);
    }
  }

  // ----- Its own steps bring it about

  lemma OwnStep(u: State, t: nat, f: Frame, c: CellId)
    requires FramesOk(u) && Enabled(u, Step(t)) && u.threads[t] == [f] && Acting(f) && c in Uses(f)
    ensures c in u.cells && (f.MoveOut? ==> f.src in u.cells)
    ensures var v := Do(u, Step(t));
            && t < |v.threads| && c in v.cells
            && (if Busy(v, t) then
                  var g := v.threads[t][0];
                  c in Uses(g) && (g.MoveOut? ==> g.src in v.cells) && Aim(g, v.cells, c) == Aim(f, u.cells, c)
                else v.cells[c].ptr == Aim(f, u.cells, c))
  {
    assert FrameAt(u, t, 0);
    assert Top(u, t) == f && Rest(u, t) == [];
    StepWrites(u, t);
  }

  lemma {:induction false} AimReached(u: State, acts: seq<Action>, w: State, t: nat, f: Frame, c: CellId, r: Ref)
    requires Inv(u) && Pending(u, t, f) && Acting(f) && c in Uses(f) && Finishes(u, acts, w, t)
    requires c in u.cells && (f.MoveOut? ==> f.src in u.cells) && r == Aim(f, u.cells, c)
    ensures c in w.cells && w.cells[c].ptr == r
    decreases |acts|
  {
    var a, v := acts[0], Do(u, acts[0]);
    InvKept(u, a);
    if Advances(u, a, t) {
      assert u.threads[t] == [f];
      OwnStep(u, t, f, c);
      if Busy(v, t) {
        AimReached(v, acts[1..], w, t, v.threads[t][0], c, r);
      }
    } else {
      StaysPending(u, a, t, f);
      CellsSpared(u, a, t, f, c);
      if f.MoveOut? {
        CellsSpared(u, a, t, f, f.src);
      }
      AimReached(v, acts[1..], w, t, f, c, r);
    }
  }

  /** Cells no operation writes hold a counted reference or nothing. */
  lemma NotRaw(s: State, c: CellId, uses: set<CellId>, writes: set<CellId>)
    requires RawsOk(s) && Available(s, uses, writes) && c in uses
    ensures c in s.cells && !s.cells[c].ptr.Raw?
  {
    forall t, k | 0 <= t < |s.threads| && 0 <= k < |s.threads[t]| ensures c !in Writes(s.threads[t][k]) {
      assert !Conflict(s.threads[t][k], uses, writes);
      assert c !in Writes(s.threads[t][k]) * uses;
    }
  }

  // ----- The operations

  /** Copying: the destination refers to what the source referred to, and the source still does. */
  lemma CopyCopies(s: State, t: nat, dst: CellId, src: CellId, pins: set<CellId>, acts: seq<Action>, w: State)
    requires Inv(s) && Enabled(s, StartCopy(t, dst, src, pins)) && Finishes(Do(s, StartCopy(t, dst, src, pins)), acts, w, t)
    ensures dst in w.cells && src in w.cells && w.cells[dst].ptr == s.cells[src].ptr == w.cells[src].ptr
  {
    var a := StartCopy(t, dst, src, pins);
    var u, uses := Do(s, a), {dst, src} + pins;
    NotRaw(s, dst, uses, {dst});
    NotRaw(s, src, uses, {dst});
    InvKept(s, a);
    if Busy(u, t) {
      var f := u.threads[t][0];
      AimReached(u, acts, w, t, f, dst, s.cells[src].ptr);
      AimReached(u, acts, w, t, f, src, s.cells[src].ptr);
    }
  }

  /** `reset()` leaves a null handle. */
  lemma ResetClears(s: State, t: nat, dst: CellId, pins: set<CellId>, acts: seq<Action>, w: State)
    requires Inv(s) && Enabled(s, StartReset(t, dst, pins)) && Finishes(Do(s, StartReset(t, dst, pins)), acts, w, t)
    ensures dst in w.cells && w.cells[dst].ptr == Null
  {
    var u := Do(s, StartReset(t, dst, pins));
    InvKept(s, StartReset(t, dst, pins));
    if Busy(u, t) {
      AimReached(u, acts, w, t, u.threads[t][0], dst, Null);
    }
  }

  /** `reset(new T)` leaves a handle to the new object. */
  lemma ResetAdopts(s: State, t: nat, o: ObjId, members: set<CellId>, dst: CellId, pins: set<CellId>, acts: seq<Action>, w: State)
    requires Inv(s) && Enabled(s, StartResetNew(t, o, members, dst, pins))
    requires Finishes(Do(s, StartResetNew(t, o, members, dst, pins)), acts, w, t)
    ensures dst in w.cells && w.cells[dst].ptr == Held(o)
  {
    var u := Do(s, StartResetNew(t, o, members, dst, pins));
    InvKept(s, StartResetNew(t, o, members, dst, pins));
    AimReached(u, acts, w, t, u.threads[t][0], dst, Held(o));
  }

  /** A handle constructed from a new object holds it. */
  lemma ConstructAdopts(s: State, t: nat, o: ObjId, members: set<CellId>, c: CellId, acts: seq<Action>, w: State)
    requires Inv(s) && Enabled(s, StartConstruct(t, o, members, c)) && Finishes(Do(s, StartConstruct(t, o, members, c)), acts, w, t)
    ensures c in w.cells && w.cells[c].ptr == Held(o)
  {
    var u := Do(s, StartConstruct(t, o, members, c));
    InvKept(s, StartConstruct(t, o, members, c));
    AimReached(u, acts, w, t, u.threads[t][0], c, Held(o));
  }

  /** A handle constructed by moving holds what the source held, and the source is null. */
  lemma MoveConstructMoves(s: State, t: nat, c: CellId, src: CellId, pins: set<CellId>, acts: seq<Action>, w: State)
    requires Inv(s) && Enabled(s, StartMoveConstruct(t, c, src, pins)) && Finishes(Do(s, StartMoveConstruct(t, c, src, pins)), acts, w, t)
    ensures c in w.cells && src in w.cells && w.cells[c].ptr == s.cells[src].ptr && w.cells[src].ptr == Null
  {
    var u := Do(s, StartMoveConstruct(t, c, src, pins));
    InvKept(s, StartMoveConstruct(t, c, src, pins));
    AimReached(u, acts, w, t, u.threads[t][0], c, s.cells[src].ptr);
    AimReached(u, acts, w, t, u.threads[t][0], src, Null);
  }

  /** Move assignment does the same; assigning a handle to itself leaves it null. */
  lemma MoveAssignMoves(s: State, t: nat, dst: CellId, src: CellId, pins: set<CellId>, acts: seq<Action>, w: State)
    requires Inv(s) && Enabled(s, StartMoveAssign(t, dst, src, pins)) && Finishes(Do(s, StartMoveAssign(t, dst, src, pins)), acts, w, t)
    ensures dst in w.cells && src in w.cells && w.cells[src].ptr == Null
    ensures dst != src ==> w.cells[dst].ptr == s.cells[src].ptr
  {
    var u := Do(s, StartMoveAssign(t, dst, src, pins));
    InvKept(s, StartMoveAssign(t, dst, src, pins));
    if dst != src {
      AimReached(u, acts, w, t, u.threads[t][0], dst, s.cells[src].ptr);
    }
    AimReached(u, acts, w, t, u.threads[t][0], src, Null);
  }

  // ----- And nothing else

  /** The handles an action creates, changes or destroys. */
  function Target(s: State, a: Action): set<CellId>
    requires Enabled(s, a)
  {
    match a
    case NewCell(c) => {c}
    case StartConstruct(_, _, members, c) => {c} + members
    case StartCopy(_, _, _, _) => {}
    case StartReset(_, _, _) => {}
    case StartResetNew(_, _, members, _, _) => members
    case StartMoveConstruct(_, c, _, _) => {c}
    case StartMoveAssign(_, dst, _, _) => {dst}
    case StartDestroy(_, c) => {c}
    case DestroyMember(_, c) => {c}
    case Step(t) => Writes(Top(s, t))
  }

  /** No action touches another handle, and destroying one removes it. */
  lemma OnlyTargetsChange(s: State, a: Action, c: CellId)
    requires Enabled(s, a)
    ensures c in s.cells && c !in Target(s, a) ==> Intact(Do(s, a), c, s.cells[c])
    ensures c !in s.cells && c !in Target(s, a) ==> c !in Do(s, a).cells
    ensures (a.StartDestroy? || a.DestroyMember?) && c in Target(s, a) ==> c !in Do(s, a).cells
    ensures a.NewCell? && c in Target(s, a) ==> Intact(Do(s, a), c, Cell(Null, None))
  {
    if a.Step? {
      StepWrites(s, a.t);
    }
  }
}
