/**
 Move assignment releases the old object before it reads the handle it moves from. When that handle
 lives inside the object being released, as in `p = std::move(p->next)`, it is still there exactly
 if the thread keeps another handle to the object.
 */
module RefCountingMoves {
  import opened Prelude
  import opened RefCounting
  import opened RefCountingSafety

  /** Move assignment with no regard to where `src` lives, as the code performs it. `pins` are the
      other handles the thread keeps. */
  function UncheckedMoveAssign(s: State, t: nat, dst: CellId, src: CellId, pins: set<CellId>): State
    requires IdleThread(s, t) && dst in s.cells && s.cells[dst].ptr.Held?
  {
    State(s.objs, SetPtr(s.cells, dst, Raw(s.cells[dst].ptr.o)),
          s.threads[t := [MoveOut(dst, src, pins), Release(s.cells[dst].ptr.o)]])
  }

  /** Thread `t` has yet to read `src`. */
  predicate Pending(u: State, t: nat, f: Frame) {
    t < |u.threads| && u.threads[t] != [] && u.threads[t][0] == f
  }

  /** A run of any threads during which the read stays pending. */
  predicate Waits(u: State, acts: seq<Action>, w: State, t: nat, f: Frame)
    decreases |acts|
  {
    Pending(u, t, f) &&
    if acts == [] then u == w
    else Enabled(u, acts[0]) && Waits(Do(u, acts[0]), acts[1..], w, t, f)
  }

  predicate Intact(w: State, c: CellId, cell: Cell) {
    c in w.cells && w.cells[c] == cell
  }

  /** Whatever the other threads do, `src` is what it was when it is read. */
  ghost predicate ReadsIntact(u: State, t: nat, f: Frame, src: CellId, cell: Cell) {
    forall acts, w | Waits(u, acts, w, t, f) :: Intact(w, src, cell)
  }

  // ----- With a handle kept, nobody can take `src` away

  lemma BeginSpares(s: State, u: State, t': nat, uses: set<CellId>, writes: set<CellId>, t: nat, f: Frame, c: CellId)
    requires Begins(s, u, t', uses, writes) && Pending(s, t, f) && c in Uses(f) && c in s.cells
    ensures Intact(u, c, s.cells[c])
  {
    assert Kept(s, t', 0, t, 0);
    assert !Conflict(s.threads[t][0], uses, writes);
    assert c !in Uses(f) * writes;
  }

  lemma StartSpares(s: State, a: Action, t: nat, f: Frame, c: CellId)
    requires Inv(s) && Enabled(s, a) && !a.Step? && Pending(s, t, f) && c in Uses(f) && c in s.cells
    ensures Intact(Start(s, a), c, s.cells[c])
  {
    var u := Start(s, a);
    match a {
      case NewCell(_) =>
      case StartConstruct(t', o, members, x) =>
        ConstructBegins(s, t', o, members, x);
        BeginSpares(s, u, t', {x}, {x}, t, f, c);
      case StartCopy(t', dst, src, pins) =>
        CopyBegins(s, t', dst, src, pins);
        if u != s {
          BeginSpares(s, u, t', {dst, src} + pins, {dst}, t, f, c);
        }
      case StartReset(t', dst, pins) =>
        ResetBegins(s, t', dst, pins);
        if u != s {
          BeginSpares(s, u, t', {dst} + pins, {dst}, t, f, c);
        }
      case StartResetNew(t', o, members, dst, pins) =>
        ResetNewBegins(s, t', o, members, dst, pins);
        BeginSpares(s, u, t', {dst} + pins, {dst}, t, f, c);
      case StartMoveConstruct(t', x, src, pins) =>
        MoveConstructBegins(s, t', x, src, pins);
        BeginSpares(s, u, t', {x, src} + pins, {x, src}, t, f, c);
      case StartMoveAssign(t', dst, src, pins) =>
        MoveAssignBegins(s, t', dst, src, pins);
        BeginSpares(s, u, t', {dst, src} + pins, {dst, src}, t, f, c);
      case StartDestroy(t', x) =>
        DestroyBegins(s, t', x);
        BeginSpares(s, u, t', {x}, {x}, t, f, c);
      case DestroyMember(t', x) =>
        assert FrameAt(s, t', |s.threads[t']| - 1);
        DyingCellsUnused(s, x, t, 0);
    }
  }

  lemma PendingSpared(s: State, a: Action, t: nat, f: Frame, c: CellId)
    requires Inv(s) && Enabled(s, a) && Pending(s, t, f) && f.MoveOut? && c in Uses(f)
    requires Pending(Do(s, a), t, f)
    ensures c in s.cells && Intact(Do(s, a), c, s.cells[c])
  {
    assert FrameAt(s, t, 0);
    if a.Step? {
      assert !(a.t == t && |s.threads[t]| == 1);
      assert Kept(s, a.t, |s.threads[a.t]| - 1, t, 0);
      StepSparesOthers(s, a.t);
    } else {
      StartSpares(s, a, t, f, c);
    }
  }

  lemma {:induction false} WaitingKeepsIntact(u: State, acts: seq<Action>, w: State, t: nat, f: Frame, c: CellId)
    requires Inv(u) && Waits(u, acts, w, t, f) && f.MoveOut? && c in Uses(f)
    ensures c in u.cells && Intact(w, c, u.cells[c])
    decreases |acts|
  {
    assert FrameAt(u, t, 0);
    if acts != [] {
      InvKept(u, acts[0]);
      assert Pending(Do(u, acts[0]), t, f);
      PendingSpared(u, acts[0], t, f, c);
      WaitingKeepsIntact(Do(u, acts[0]), acts[1..], w, t, f, c);
    }
  }

  // ----- Without one, another thread can

  /** A thread that keeps the handles `via` can reset `c`; it does not reach it through another
      handle to `o`. */
  ghost predicate DroppableVia(s: State, c: CellId, o: ObjId, via: set<CellId>) {
    && Available(s, {c} + via, {c}) && Supported(s.cells, {c} + via, {c} + via)
    && forall q | q in via && q in s.cells :: s.cells[q].ptr != Held(o)
  }

  /** Whether on a stack or inside an object, the handle is within reach of some idle thread. */
  ghost predicate Droppable(s: State, c: CellId, o: ObjId) {
    exists via :: DroppableVia(s, c, o, via)
  }

  /** Only `src`'s object is left to die: every reference to it is a handle somebody can drop. */
  ghost predicate Exposed(u: State, o: ObjId, src: CellId) {
    && o in u.objs && u.objs[o].count == |HeldBy(u.cells, o)|
    && src in u.cells && u.cells[src].home == Some(o)
    && forall c | c in HeldBy(u.cells, o) :: Droppable(u, c, o)
  }

  /** The handle is null and its reference yet to be released. */
  function Dropping(u: State, t2: nat, c: CellId, o: ObjId): State
    requires t2 < |u.threads| && c in u.cells
  {
    State(u.objs, u.cells[c := Cell(Null, u.cells[c].home)], u.threads[t2 := [Release(o)]])
  }

  function Dropped(u: State, t2: nat, c: CellId, o: ObjId): State
    requires t2 < |u.threads| && c in u.cells && o in u.objs
  {
    State(Decremented(u.objs, o), u.cells[c := Cell(Null, u.cells[c].home)],
          u.threads[t2 := if u.objs[o].count == 1 then [Destroying(o)] else []])
  }

  lemma StartDropping(u: State, t2: nat, o: ObjId, c: CellId, via: set<CellId>)
    requires IdleThread(u, t2) && c in HeldBy(u.cells, o) && DroppableVia(u, c, o, via)
    ensures Enabled(u, StartReset(t2, c, via))
    ensures var mid := Do(u, StartReset(t2, c, via));
            Enabled(mid, Step(t2)) && Do(mid, Step(t2)) == Dropping(u, t2, c, o)
  {
    var mid := Do(u, StartReset(t2, c, via));
    assert mid.threads[t2] == [Store(None, c, {c} + via)] && Rest(mid, t2) == [];
    assert [] + [Release(o)] == [Release(o)];
    assert mid.threads[t2 := [Release(o)]] == u.threads[t2 := [Release(o)]];
  }

  lemma FinishDropping(u: State, t2: nat, o: ObjId, c: CellId)
    requires t2 < |u.threads| && c in u.cells && o in u.objs
    ensures Enabled(Dropping(u, t2, c, o), Step(t2)) && Do(Dropping(u, t2, c, o), Step(t2)) == Dropped(u, t2, c, o)
  {
    var v := Dropping(u, t2, c, o);
    assert Top(v, t2) == Release(o) && Rest(v, t2) == [];
    assert [] + [Destroying(o)] == [Destroying(o)];
    var stack := if u.objs[o].count == 1 then [Destroying(o)] else [];
    assert v.threads[t2 := stack] == u.threads[t2 := stack];
  }

  lemma DroppableLater(u: State, v: State, o: ObjId, c: CellId, x: CellId)
    requires c in HeldBy(u.cells, o) && x in HeldBy(u.cells, o) && x != c && Droppable(u, x, o)
    requires v.threads == u.threads && v.cells == u.cells[c := Cell(Null, u.cells[c].home)]
    ensures Droppable(v, x, o)
  {
    var via :| DroppableVia(u, x, o, via);
    assert c !in {x} + via;
    forall q | q in {x} + via && v.cells[q].home.Some? ensures Pinned(v.cells, {x} + via, v.cells[q].home.value) {
      var p :| p in {x} + via && u.cells[p].ptr == Held(u.cells[q].home.value);
      assert v.cells[p] == u.cells[p];
    }
    assert DroppableVia(v, x, o, via);
  }

  lemma StillExposed(u: State, t2: nat, o: ObjId, src: CellId, c: CellId)
    requires Exposed(u, o, src) && IdleThread(u, t2) && c in HeldBy(u.cells, o) && u.objs[o].count != 1
    ensures Exposed(Dropped(u, t2, c, o), o, src)
    ensures HeldBy(Dropped(u, t2, c, o).cells, o) == HeldBy(u.cells, o) - {c}
  {
    var v := Dropped(u, t2, c, o);
    assert v.threads == u.threads;
    assert HeldBy(v.cells, o) == HeldBy(u.cells, o) - {c};
    forall x | x in HeldBy(v.cells, o) ensures Droppable(v, x, o) {
      DroppableLater(u, v, o, c, x);
    }
  }

  lemma WaitOneMore(u: State, a: Action, acts: seq<Action>, w: State, t: nat, f: Frame)
    requires Pending(u, t, f) && Enabled(u, a) && Waits(Do(u, a), acts, w, t, f)
    ensures Waits(u, [a] + acts, w, t, f)
  {
    assert ([a] + acts)[1..] == acts;
  }

  /** The last reference dropped, the destructor takes `src` away. */
  lemma TakeAway(v: State, t: nat, f: Frame, t2: nat, o: ObjId, src: CellId) returns (acts: seq<Action>, w: State)
    requires Pending(v, t, f) && t2 < |v.threads| && v.threads[t2] != [] && Top(v, t2) == Destroying(o)
    requires src in v.cells && v.cells[src].home == Some(o)
    ensures Waits(v, acts, w, t, f) && src !in w.cells
  {
    w := Start(v, DestroyMember(t2, src));
    assert Waits(w, [], w, t, f);
    WaitOneMore(v, DestroyMember(t2, src), [], w, t, f);
    acts := [DestroyMember(t2, src)] + [];
  }

  lemma DropAndGo(u: State, t: nat, f: Frame, t2: nat, o: ObjId, c: CellId, via: set<CellId>, rest: seq<Action>, w: State)
    requires IdleThread(u, t2) && t2 != t && Pending(u, t, f) && o in u.objs && c in HeldBy(u.cells, o)
    requires DroppableVia(u, c, o, via) && Waits(Dropped(u, t2, c, o), rest, w, t, f)
    ensures Waits(u, [StartReset(t2, c, via)] + ([Step(t2)] + ([Step(t2)] + rest)), w, t, f)
  {
    StartDropping(u, t2, o, c, via);
    FinishDropping(u, t2, o, c);
    WaitOneMore(Dropping(u, t2, c, o), Step(t2), rest, w, t, f);
    WaitOneMore(Do(u, StartReset(t2, c, via)), Step(t2), [Step(t2)] + rest, w, t, f);
    WaitOneMore(u, StartReset(t2, c, via), [Step(t2)] + ([Step(t2)] + rest), w, t, f);
  }

  lemma {:induction false} DropAll(u: State, t: nat, f: Frame, t2: nat, o: ObjId, src: CellId) returns (acts: seq<Action>, w: State)
    requires Exposed(u, o, src) && IdleThread(u, t2) && t2 != t && Pending(u, t, f) && HeldBy(u.cells, o) != {}
    requires src !in HeldBy(u.cells, o)
    ensures Waits(u, acts, w, t, f) && src !in w.cells
    decreases |HeldBy(u.cells, o)|
  {
    var c :| c in HeldBy(u.cells, o);
    var via :| DroppableVia(u, c, o, via);
    var v := Dropped(u, t2, c, o);
    var rest;
    if u.objs[o].count == 1 {
      rest, w := TakeAway(v, t, f, t2, o, src);
    } else {
      StillExposed(u, t2, o, src, c);
      assert |HeldBy(v.cells, o)| == |HeldBy(u.cells, o)| - 1;
      rest, w := DropAll(v, t, f, t2, o, src);
    }
    DropAndGo(u, t, f, t2, o, c, via, rest, w);
    acts := [StartReset(t2, c, via)] + ([Step(t2)] + ([Step(t2)] + rest));
  }

  // ----- The exact condition

  /** Thread `t` assigns to its handle `dst`, which refers to `o`, from a handle inside `o`. */
  ghost predicate FromInside(s: State, t: nat, dst: CellId, src: CellId, pins: set<CellId>, o: ObjId) {
    && IdleThread(s, t) && dst != src && dst !in pins && src !in pins
    && Available(s, {dst, src} + pins, {dst, src}) && Supported(s.cells, {dst} + pins, pins)
    && s.cells[dst].ptr == Held(o) && s.cells[src].home == Some(o)
  }

  /** Nobody is in the middle of copying or releasing a reference to `o`, and those that `t` does not
      keep are in handles that other threads can reset meanwhile, without using `dst` or `src`. */
  ghost predicate OthersCanDrop(s: State, dst: CellId, src: CellId, pins: set<CellId>, o: ObjId) {
    && InFlight(s.threads, o) == 0
    && forall c | c in HeldBy(s.cells, o) && c != dst && c !in pins :: c != src && DroppableWithout(s, c, o, {dst, src})
  }

  ghost predicate DroppableWithout(s: State, c: CellId, o: ObjId, busy: set<CellId>) {
    exists via :: via !! busy && DroppableVia(s, c, o, via)
  }

  lemma UncheckedIsChecked(s: State, t: nat, dst: CellId, src: CellId, pins: set<CellId>, o: ObjId)
    requires FromInside(s, t, dst, src, pins, o) && Pinned(s.cells, pins, o)
    ensures Enabled(s, StartMoveAssign(t, dst, src, pins))
    ensures Start(s, StartMoveAssign(t, dst, src, pins)) == UncheckedMoveAssign(s, t, dst, src, pins)
  {
    assert Supported(s.cells, {dst, src} + pins, pins);
    assert [MoveOut(dst, src, pins)] + [Release(o)] == [MoveOut(dst, src, pins), Release(o)];
  }

  lemma PendingReadsIntact(u: State, t: nat, f: Frame, c: CellId, cell: Cell)
    requires Inv(u) && Pending(u, t, f) && f.MoveOut? && c in Uses(f) && Intact(u, c, cell)
    ensures ReadsIntact(u, t, f, c, cell)
  {
    forall acts, w | Waits(u, acts, w, t, f) ensures Intact(w, c, cell) {
      WaitingKeepsIntact(u, acts, w, t, f, c);
    }
  }

  lemma CheckedInv(s: State, t: nat, dst: CellId, src: CellId, pins: set<CellId>, o: ObjId)
    requires Inv(s) && FromInside(s, t, dst, src, pins, o) && Pinned(s.cells, pins, o)
    ensures Inv(UncheckedMoveAssign(s, t, dst, src, pins))
  {
    UncheckedIsChecked(s, t, dst, src, pins, o);
    MoveAssignInv(s, t, dst, src, pins);
  }

  lemma UncheckedStart(s: State, t: nat, dst: CellId, src: CellId, pins: set<CellId>, o: ObjId)
    requires FromInside(s, t, dst, src, pins, o)
    ensures var u := UncheckedMoveAssign(s, t, dst, src, pins);
            Pending(u, t, MoveOut(dst, src, pins)) && src in Uses(MoveOut(dst, src, pins)) && Intact(u, src, s.cells[src])
  {
  }

  lemma PinnedIsIntact(s: State, t: nat, dst: CellId, src: CellId, pins: set<CellId>, o: ObjId)
    requires Inv(s) && FromInside(s, t, dst, src, pins, o) && Pinned(s.cells, pins, o)
    ensures ReadsIntact(UncheckedMoveAssign(s, t, dst, src, pins), t, MoveOut(dst, src, pins), src, s.cells[src])
  {
    CheckedInv(s, t, dst, src, pins, o);
    UncheckedStart(s, t, dst, src, pins, o);
    PendingReadsIntact(UncheckedMoveAssign(s, t, dst, src, pins), t, MoveOut(dst, src, pins), src, s.cells[src]);
  }

  lemma ReleasedState(s: State, t: nat, dst: CellId, src: CellId, pins: set<CellId>, o: ObjId)
    requires CountsOk(s) && FromInside(s, t, dst, src, pins, o)
    ensures o in s.objs && Enabled(UncheckedMoveAssign(s, t, dst, src, pins), Step(t))
    ensures var v := Advance(UncheckedMoveAssign(s, t, dst, src, pins), t);
            var f := MoveOut(dst, src, pins);
            && v.threads == s.threads[t := if s.objs[o].count == 1 then [f, Destroying(o)] else [f]]
            && HeldBy(v.cells, o) == HeldBy(s.cells, o) - {dst}
            && o in v.objs && v.objs[o].count == s.objs[o].count - 1
            && v.cells.Keys == s.cells.Keys && forall c | c in s.cells && c != dst :: v.cells[c] == s.cells[c]
  {
    HeldIsLive(s, dst);
    var u, f := UncheckedMoveAssign(s, t, dst, src, pins), MoveOut(dst, src, pins);
    assert Top(u, t) == Release(o) && Rest(u, t) == [f];
    assert [f] + [Destroying(o)] == [f, Destroying(o)];
    var v := Advance(u, t);
    assert v.threads[t] == if s.objs[o].count == 1 then [f, Destroying(o)] else [f];
    assert v.threads == s.threads[t := v.threads[t]];
  }

  lemma DroppableMeanwhile(s: State, v: State, t: nat, dst: CellId, src: CellId, pins: set<CellId>, o: ObjId, c: CellId)
    requires DroppableWithout(s, c, o, {dst, src}) && c != dst && c != src && c !in pins && t < |s.threads|
    requires v.threads == s.threads[t := [MoveOut(dst, src, pins)]]
    requires v.cells.Keys == s.cells.Keys && forall x | x in s.cells && x != dst :: v.cells[x] == s.cells[x]
    ensures Droppable(v, c, o)
  {
    var via :| via !! {dst, src} && DroppableVia(s, c, o, via);
    var uses := {c} + via;
    forall t', k | 0 <= t' < |v.threads| && 0 <= k < |v.threads[t']| ensures !Conflict(v.threads[t'][k], uses, {c}) {
      if t' != t {
        assert !Conflict(s.threads[t'][k], uses, {c});
      }
    }
    forall q | q in uses && v.cells[q].home.Some? ensures Pinned(v.cells, uses, v.cells[q].home.value) {
      var p :| p in uses && s.cells[p].ptr == Held(s.cells[q].home.value);
      assert v.cells[p] == s.cells[p];
    }
    assert DroppableVia(v, c, o, via);
  }

  lemma UnpinnedIsExposed(s: State, v: State, t: nat, dst: CellId, src: CellId, pins: set<CellId>, o: ObjId)
    requires FromInside(s, t, dst, src, pins, o) && OthersCanDrop(s, dst, src, pins, o) && !Pinned(s.cells, pins, o)
    requires o in s.objs && s.objs[o].count == |HeldBy(s.cells, o)| > 1
    requires v.threads == s.threads[t := [MoveOut(dst, src, pins)]]
    requires HeldBy(v.cells, o) == HeldBy(s.cells, o) - {dst} && o in v.objs && v.objs[o].count == s.objs[o].count - 1
    requires v.cells.Keys == s.cells.Keys && forall c | c in s.cells && c != dst :: v.cells[c] == s.cells[c]
    ensures Exposed(v, o, src) && HeldBy(v.cells, o) != {} && src !in HeldBy(v.cells, o)
  {
    assert dst in HeldBy(s.cells, o);
    assert |HeldBy(v.cells, o)| == |HeldBy(s.cells, o)| - 1;
    forall c | c in HeldBy(v.cells, o) ensures Droppable(v, c, o) {
      assert c !in pins;
      DroppableMeanwhile(s, v, t, dst, src, pins, o, c);
    }
  }

  lemma UnpinnedIsTaken(s: State, t: nat, t2: nat, dst: CellId, src: CellId, pins: set<CellId>, o: ObjId)
      returns (acts: seq<Action>, w: State)
    requires CountsOk(s) && FromInside(s, t, dst, src, pins, o) && OthersCanDrop(s, dst, src, pins, o)
    requires IdleThread(s, t2) && t2 != t && !Pinned(s.cells, pins, o)
    ensures Waits(UncheckedMoveAssign(s, t, dst, src, pins), acts, w, t, MoveOut(dst, src, pins)) && src !in w.cells
  {
    var u, f := UncheckedMoveAssign(s, t, dst, src, pins), MoveOut(dst, src, pins);
    ReleasedState(s, t, dst, src, pins, o);
    var v := Advance(u, t);
    var rest;
    if s.objs[o].count == 1 {
      rest, w := TakeAway(v, t, f, t, o, src);
    } else {
      HeldIsLive(s, dst);
      UnpinnedIsExposed(s, v, t, dst, src, pins, o);
      rest, w := DropAll(v, t, f, t2, o, src);
    }
    WaitOneMore(u, Step(t), rest, w, t, f);
    acts := [Step(t)] + rest;
  }

  /** `p = std::move(p->next)` with another thread around: `p->next` is read as it was, in every run,
      exactly if the thread keeps another handle to the object; how high the count is does not matter. */
  lemma MoveFromInside(s: State, t: nat, t2: nat, dst: CellId, src: CellId, pins: set<CellId>, o: ObjId)
    requires Inv(s) && FromInside(s, t, dst, src, pins, o) && OthersCanDrop(s, dst, src, pins, o)
    requires IdleThread(s, t2) && t2 != t
    ensures ReadsIntact(UncheckedMoveAssign(s, t, dst, src, pins), t, MoveOut(dst, src, pins), src, s.cells[src]) <==>
            Pinned(s.cells, pins, o)
  {
    if Pinned(s.cells, pins, o) {
      PinnedIsIntact(s, t, dst, src, pins, o);
    } else {
      var acts, w := UnpinnedIsTaken(s, t, t2, dst, src, pins, o);
    }
  }

  // ----- Without any other reference, every run takes it away

  /** The destructor of `o` has not returned to thread `t`'s move assignment, or it has destroyed
      every handle that lived in `o`. */
  predicate GoneOnReturn(u: State, t: nat, o: ObjId) {
    t < |u.threads| && o in u.objs &&
    if |u.threads[t]| >= 2 && u.threads[t][1] == Destroying(o) then true
    else forall c | c in u.cells :: u.cells[c].home != Some(o)
  }

  lemma GoneKept(u: State, a: Action, t: nat, o: ObjId)
    requires GoneOnReturn(u, t, o) && Enabled(u, a)
    ensures GoneOnReturn(Do(u, a), t, o)
  {
    var w := Do(u, a);
    if |u.threads[t]| >= 2 && u.threads[t][1] == Destroying(o) {
      if a.Step? && a.t == t && |u.threads[t]| == 2 {
        assert Top(u, t) == Destroying(o);
      } else if !a.NewCell? && a.t == t {
        assert |w.threads[t]| >= 2 && w.threads[t][1] == Destroying(o);
      }
    } else {
      assert forall c | c in w.cells :: w.cells[c].home != Some(o);
    }
  }

  lemma {:induction false} GoneReached(u: State, acts: seq<Action>, w: State, t: nat, f: Frame, o: ObjId)
    requires GoneOnReturn(u, t, o) && Waits(u, acts, w, t, f)
    ensures GoneOnReturn(w, t, o)
    decreases |acts|
  {
    if acts != [] {
      GoneKept(u, acts[0], t, o);
      GoneReached(Do(u, acts[0]), acts[1..], w, t, f, o);
    }
  }

  /** With the last reference released, `src` has been destroyed in every run by the time the
      assignment goes on to read it. */
  lemma LastReferenceTakesItAway(s: State, t: nat, dst: CellId, src: CellId, pins: set<CellId>, o: ObjId, acts: seq<Action>, w: State)
    requires CountsOk(s) && FromInside(s, t, dst, src, pins, o) && o in s.objs && s.objs[o].count == 1
    requires Enabled(UncheckedMoveAssign(s, t, dst, src, pins), Step(t))
    requires Waits(Advance(UncheckedMoveAssign(s, t, dst, src, pins), t), acts, w, t, MoveOut(dst, src, pins))
    ensures t < |w.threads|
    ensures w.threads[t] == [MoveOut(dst, src, pins)] ==> !(src in w.cells && w.cells[src].home == Some(o))
  {
    var v := Advance(UncheckedMoveAssign(s, t, dst, src, pins), t);
    ReleasedState(s, t, dst, src, pins, o);
    assert v.threads[t] == [MoveOut(dst, src, pins), Destroying(o)];
    GoneReached(v, acts, w, t, MoveOut(dst, src, pins), o);
  }

  // ----- Inputs on either side

  /** An object with a handle in it, and one handle to it. */
  function OneHandle(): State {
    State(map[0 := Object(1, Live)], map[10 := Cell(Held(0), None), 12 := Cell(Null, Some(0))], [[], []])
  }

  /** The same with a second handle. */
  function TwoHandles(): State {
    State(map[0 := Object(2, Live)],
          map[10 := Cell(Held(0), None), 12 := Cell(Null, Some(0)), 11 := Cell(Held(0), None)], [[], []])
  }

  function BuildOne(): seq<Action> {
    [StartConstruct(0, 0, {12}, 10), Step(0)]
  }

  function BuildTwo(): seq<Action> {
    [NewCell(11), StartCopy(0, 11, 10, {}), Step(0), Step(0)]
  }

  lemma ReachOneMore(s: State, a: Action, acts: seq<Action>, w: State)
    requires Enabled(s, a) && Reaches(Do(s, a), acts, w)
    ensures Reaches(s, [a] + acts, w)
  {
    assert ([a] + acts)[1..] == acts;
  }

  lemma OneIsReached()
    ensures Reaches(Init(2), BuildOne(), OneHandle())
  {
    var a, b := StartConstruct(0, 0, {12}, 10), Step(0);
    var s := Init(2);
    assert s.threads == [[], []];
    var v := Do(s, a);
    assert v == State(map[0 := Object(0, Fresh)], map[10 := Cell(Raw(0), None), 12 := Cell(Null, Some(0))], [[Adopt(10, 0)], []]);
    assert Rest(v, 0) == [];
    assert Do(v, b) == OneHandle();
    ReachOneMore(v, b, [], OneHandle());
    ReachOneMore(s, a, [b] + [], OneHandle());
    assert BuildOne() == [a] + ([b] + []);
  }

  /** On the way to the second handle. */
  function Copying(count: int, stack: seq<Frame>): State {
    State(map[0 := Object(count, Live)],
          map[10 := Cell(Held(0), None), 12 := Cell(Null, Some(0)), 11 := Cell(Null, None)], [stack, []])
  }

  lemma CopyStarts()
    ensures var s, a := Copying(1, []), StartCopy(0, 11, 10, {});
            Enabled(s, a) && Do(s, a) == Copying(1, [Inc(0, false, 11, {11, 10})])
  {
    var s, a := Copying(1, []), StartCopy(0, 11, 10, {});
    assert {11, 10} + {} == {11, 10};
    assert Enabled(s, a);
    var u := Do(s, a);
    assert u.threads[0] == [Inc(0, false, 11, {11, 10})];
  }

  lemma ReplaceFirst(a: seq<Frame>, b: seq<Frame>)
    ensures [a, []][0 := b] == [b, []] && [] + b == b
  {
  }

  lemma IncStep()
    ensures Do(Copying(1, [Inc(0, false, 11, {11, 10})]), Step(0)) == Copying(2, [Store(Some(0), 11, {11, 10})])
  {
    var v, w := Copying(1, [Inc(0, false, 11, {11, 10})]), Copying(2, [Store(Some(0), 11, {11, 10})]);
    assert Rest(v, 0) == [];
    ReplaceFirst(v.threads[0], w.threads[0]);
    assert Incremented(v.objs, 0) == w.objs;
  }

  lemma StoreStep()
    ensures Do(Copying(2, [Store(Some(0), 11, {11, 10})]), Step(0)) == TwoHandles()
  {
    var w := Copying(2, [Store(Some(0), 11, {11, 10})]);
    assert Rest(w, 0) == [] && PtrOf(w.cells, 11) == Null;
    ReplaceFirst(w.threads[0], []);
    assert SetPtr(w.cells, 11, Held(0)) == TwoHandles().cells;
  }

  lemma TwoIsReached()
    ensures Reaches(OneHandle(), BuildTwo(), TwoHandles())
  {
    var v1, v2, v3 := Copying(1, []), Copying(1, [Inc(0, false, 11, {11, 10})]), Copying(2, [Store(Some(0), 11, {11, 10})]);
    CopyStarts();
    IncStep();
    StoreStep();
    assert Do(OneHandle(), NewCell(11)) == v1;
    ReachOneMore(v3, Step(0), [], TwoHandles());
    ReachOneMore(v2, Step(0), [Step(0)], TwoHandles());
    ReachOneMore(v1, StartCopy(0, 11, 10, {}), [Step(0), Step(0)], TwoHandles());
    ReachOneMore(OneHandle(), NewCell(11), [StartCopy(0, 11, 10, {}), Step(0), Step(0)], TwoHandles());
    assert [Step(0)] + [] == [Step(0)];
  }

  lemma HandlesHold()
    ensures HeldBy(OneHandle().cells, 0) == {10} && HeldBy(TwoHandles().cells, 0) == {10, 11}
    ensures InFlight(OneHandle().threads, 0) == 0 && InFlight(TwoHandles().threads, 0) == 0
  {
    var idle: seq<seq<Frame>> := [[], []];
    assert idle[..1][..0] == [] && InFlight(idle[..1], 0) == 0;
  }

  lemma OneIsCase()
    ensures FromInside(OneHandle(), 0, 10, 12, {}, 0) && OthersCanDrop(OneHandle(), 10, 12, {}, 0)
    ensures IdleThread(OneHandle(), 1) && !Pinned(OneHandle().cells, {}, 0)
  {
    HandlesHold();
    assert {10, 12} + {} == {10, 12};
  }

  lemma TwoIsCase(pins: set<CellId>)
    requires pins == {} || pins == {11}
    ensures FromInside(TwoHandles(), 0, 10, 12, pins, 0) && OthersCanDrop(TwoHandles(), 10, 12, pins, 0)
    ensures IdleThread(TwoHandles(), 1) && (Pinned(TwoHandles().cells, pins, 0) <==> pins == {11})
  {
    HandlesHold();
    assert TwoHandles().cells[11].ptr == Held(0);
    assert {10, 12} + pins <= TwoHandles().cells.Keys;
    assert {11} + {} == {11};
    assert {} !! {10, 12} && DroppableVia(TwoHandles(), 11, 0, {});
    assert DroppableWithout(TwoHandles(), 11, 0, {10, 12});
  }

  lemma BothHaveInv()
    ensures Inv(OneHandle()) && Inv(TwoHandles())
  {
    OneIsReached();
    TwoIsReached();
    InitInv(2);
    InvReached(Init(2), BuildOne(), OneHandle());
    InvReached(OneHandle(), BuildTwo(), TwoHandles());
  }

  /** The outcome for thread 0 assigning from cell 12 to cell 10 while it keeps `pins`. */
  ghost predicate Goes(s: State, pins: set<CellId>)
    requires IdleThread(s, 0) && 10 in s.cells && s.cells[10].ptr.Held?
  {
    ReadsIntact(UncheckedMoveAssign(s, 0, 10, 12, pins), 0, MoveOut(10, 12, pins), 12, Cell(Null, Some(0)))
  }

  /** Reachable states with counts 1 and 2 in which the read can go wrong, and with count 2 and the
      second handle kept by the thread, in which it cannot. */
  lemma CountDoesNotDecide()
    ensures Reaches(Init(2), BuildOne(), OneHandle()) && Reaches(OneHandle(), BuildTwo(), TwoHandles())
    ensures !Goes(OneHandle(), {}) && !Goes(TwoHandles(), {}) && Goes(TwoHandles(), {11})
  {
    OneIsReached();
    TwoIsReached();
    BothHaveInv();
    OneIsCase();
    MoveFromInside(OneHandle(), 0, 1, 10, 12, {}, 0);
    TwoIsCase({});
    MoveFromInside(TwoHandles(), 0, 1, 10, 12, {}, 0);
    TwoIsCase({11});
    MoveFromInside(TwoHandles(), 0, 1, 10, 12, {11}, 0);
  }
}
