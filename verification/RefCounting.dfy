/**
 Intrusive reference counting: `RefCounted` and `SharedRefPtr` (src/ref_counted.hpp), used by any
 number of threads at once.

 A cell is one `SharedRefPtr`; it lives on a stack or inside a counted object, whose destructor
 destroys it. Every atomic operation and every write of a `ptr_` is one step, the steps of all
 threads interleave, and a destructor runs as frames on the stack of the thread that released the
 last reference. Callers are held to what C++ demands of them: no two threads use a handle at once
 when one of them writes it, and the objects around the handles they use are kept alive by handles
 of their own.
 */
module RefCounting {

  import opened Prelude

  type ObjId = nat
  type CellId = nat

  datatype Phase = Fresh | Live | Dying | Freed

  datatype Object = Object(count: int, phase: Phase)

  /** A `ptr_`. `Raw(o)` is a pointer to `o` that no reference stands behind: it is not counted
      yet, has been released already, or was moved to another cell. */
  datatype Ref = Null | Held(o: ObjId) | Raw(o: ObjId)

  datatype Cell = Cell(ptr: Ref, home: Option<ObjId>)

  /** An operation in progress. `uses` are the cells it works with. */
  datatype Frame =
    | Adopt(c: CellId, o: ObjId)                                // SharedRefPtr(T*): inc_ref to come
    | Inc(o: ObjId, isNew: bool, dst: CellId, uses: set<CellId>) // copy: inc_ref to come
    | Store(p: Option<ObjId>, dst: CellId, uses: set<CellId>)   // copy: ptr_ to be replaced
    | Release(o: ObjId)                                         // dec_ref to come
    | Destroying(o: ObjId)                                      // inside the destructor
    | MoveOut(dst: CellId, src: CellId, pins: set<CellId>)      // ptr_ = ref.ptr_ to come
    | MoveNull(src: CellId, pins: set<CellId>)                  // ref.ptr_ = NULL to come

  datatype State = State(objs: map<ObjId, Object>, cells: map<CellId, Cell>, threads: seq<seq<Frame>>)

  function Uses(f: Frame): set<CellId> {
    match f
    case Adopt(c, _) => {c}
    case Inc(_, _, _, uses) => uses
    case Store(_, _, uses) => uses
    case Release(_) => {}
    case Destroying(_) => {}
    case MoveOut(dst, src, pins) => {dst, src} + pins
    case MoveNull(src, pins) => {src} + pins
  }

  function Writes(f: Frame): set<CellId> {
    match f
    case Adopt(c, _) => {c}
    case Inc(_, _, dst, _) => {dst}
    case Store(_, dst, _) => {dst}
    case Release(_) => {}
    case Destroying(_) => {}
    case MoveOut(dst, src, _) => {dst, src}
    case MoveNull(src, _) => {src}
  }

  /** The frame stands for one reference to `o`. */
  predicate Carries(f: Frame, o: ObjId) {
    f == Release(o) || (f.Store? && f.p == Some(o))
  }

  predicate Pinned(cells: map<CellId, Cell>, pins: set<CellId>, o: ObjId) {
    exists q | q in pins && q in cells :: cells[q].ptr == Held(o)
  }

  /** Every object that contains one of `used` is referenced by one of `pins`. */
  predicate Supported(cells: map<CellId, Cell>, used: set<CellId>, pins: set<CellId>) {
    forall c | c in used && c in cells && cells[c].home.Some? ::
      Pinned(cells, pins, cells[c].home.value)
  }

  predicate Conflict(f: Frame, uses: set<CellId>, writes: set<CellId>) {
    Writes(f) * uses != {} || Uses(f) * writes != {}
  }

  /** No operation in progress, on any thread, is in the way of one using `uses` and writing `writes`. */
  predicate Available(s: State, uses: set<CellId>, writes: set<CellId>) {
    && uses <= s.cells.Keys
    && forall t, k | 0 <= t < |s.threads| && 0 <= k < |s.threads[t]| ::
         !Conflict(s.threads[t][k], uses, writes)
  }

  function Top(s: State, t: nat): Frame
    requires t < |s.threads| && s.threads[t] != []
  {
    s.threads[t][|s.threads[t]| - 1]
  }

  function Rest(s: State, t: nat): seq<Frame>
    requires t < |s.threads| && s.threads[t] != []
  {
    s.threads[t][..|s.threads[t]| - 1]
  }

  /** What a thread can do next. `StartConstruct` and `StartResetNew` are given a new object. Given a
      pointer to a counted one, which comes from a handle in use, `reset(T*)` is `StartCopy` with
      that handle as `src`, and the constructor is `NewCell` followed by it. */
  datatype Action =
    | NewCell(c: CellId)
    | StartConstruct(t: nat, o: ObjId, members: set<CellId>, c: CellId)
    | StartCopy(t: nat, dst: CellId, src: CellId, pins: set<CellId>)
    | StartReset(t: nat, dst: CellId, pins: set<CellId>)
    | StartResetNew(t: nat, o: ObjId, members: set<CellId>, dst: CellId, pins: set<CellId>)
    | StartMoveConstruct(t: nat, c: CellId, src: CellId, pins: set<CellId>)
    | StartMoveAssign(t: nat, dst: CellId, src: CellId, pins: set<CellId>)
    | StartDestroy(t: nat, c: CellId)
    | DestroyMember(t: nat, c: CellId)
    | Step(t: nat)

  predicate NewObject(s: State, o: ObjId, members: set<CellId>) {
    o !in s.objs && members !! s.cells.Keys
  }

  predicate IdleThread(s: State, t: nat) {
    t < |s.threads| && s.threads[t] == []
  }

  predicate Enabled(s: State, a: Action) {
    match a
    case NewCell(c) => c !in s.cells
    case StartConstruct(t, o, members, c) =>
      IdleThread(s, t) && NewObject(s, o, members) && c !in s.cells && c !in members
    case StartCopy(t, dst, src, pins) =>
      IdleThread(s, t) && Available(s, {dst, src} + pins, {dst}) &&
      Supported(s.cells, {dst, src} + pins, {dst, src} + pins)
    case StartReset(t, dst, pins) =>
      IdleThread(s, t) && Available(s, {dst} + pins, {dst}) && Supported(s.cells, {dst} + pins, {dst} + pins)
    case StartResetNew(t, o, members, dst, pins) =>
      IdleThread(s, t) && NewObject(s, o, members) &&
      Available(s, {dst} + pins, {dst}) && Supported(s.cells, {dst} + pins, {dst} + pins)
    case StartMoveConstruct(t, c, src, pins) =>
      IdleThread(s, t) && c !in s.cells && src !in pins &&
      Available(s, {src} + pins, {src}) && Supported(s.cells, {src} + pins, pins)
    case StartMoveAssign(t, dst, src, pins) =>
      IdleThread(s, t) && dst !in pins && src !in pins &&
      Available(s, {dst, src} + pins, {dst, src}) && Supported(s.cells, {dst, src} + pins, pins)
    case StartDestroy(t, c) =>
      IdleThread(s, t) && Available(s, {c}, {c}) && s.cells[c].home.None?
    case DestroyMember(t, c) =>
      t < |s.threads| && s.threads[t] != [] && Top(s, t).Destroying? &&
      c in s.cells && s.cells[c].home == Some(Top(s, t).o)
    case Step(t) =>
      t < |s.threads| && s.threads[t] != [] &&
      (Top(s, t).Destroying? ==> forall c | c in s.cells :: s.cells[c].home != Some(Top(s, t).o))
  }

  function WithMembers(cells: map<CellId, Cell>, o: ObjId, members: set<CellId>): map<CellId, Cell> {
    cells + map c | c in members :: Cell(Null, Some(o))
  }

  /** The frames that release whatever `r` points to. */
  function Releases(r: Ref): seq<Frame> {
    if r.Null? then [] else [Release(r.o)]
  }

  function Put(s: State, t: nat, stack: seq<Frame>): State
    requires t < |s.threads|
  {
    s.(threads := s.threads[t := stack])
  }

  function SetPtr(cells: map<CellId, Cell>, c: CellId, r: Ref): map<CellId, Cell> {
    if c in cells then cells[c := cells[c].(ptr := r)] else cells
  }

  function PtrOf(cells: map<CellId, Cell>, c: CellId): Ref {
    if c in cells then cells[c].ptr else Null
  }

  /** inc_ref: the first reference makes a new object live. */
  function Incremented(objs: map<ObjId, Object>, o: ObjId): map<ObjId, Object> {
    if o in objs then
      objs[o := Object(objs[o].count + 1, if objs[o].phase.Fresh? then Live else objs[o].phase)]
    else objs
  }

  /** dec_ref: fetch_sub, then delete if the previous value was 1. */
  function Decremented(objs: map<ObjId, Object>, o: ObjId): map<ObjId, Object> {
    if o in objs then
      objs[o := Object(objs[o].count - 1, if objs[o].count == 1 then Dying else objs[o].phase)]
    else objs
  }

  function Bits(r: Ref): Option<ObjId> {
    if r.Null? then None else Some(r.o)
  }

  function Start(s: State, a: Action): State
    requires Enabled(s, a) && !a.Step?
  {
    match a
    case NewCell(c) => s.(cells := s.cells[c := Cell(Null, None)])
    case StartConstruct(t, o, members, c) =>
      State(s.objs[o := Object(0, Fresh)],
            WithMembers(s.cells, o, members)[c := Cell(Raw(o), None)],
            s.threads[t := [Adopt(c, o)]])
    case StartCopy(t, dst, src, pins) =>
      var p, uses := s.cells[src].ptr, {dst, src} + pins;
      if Bits(p) == Bits(s.cells[dst].ptr) then s
      else Put(s, t, [if p.Null? then Store(None, dst, uses) else Inc(p.o, false, dst, uses)])
    case StartReset(t, dst, pins) =>
      if s.cells[dst].ptr.Null? then s else Put(s, t, [Store(None, dst, {dst} + pins)])
    case StartResetNew(t, o, members, dst, pins) =>
      State(s.objs[o := Object(0, Fresh)],
            WithMembers(s.cells, o, members),
            s.threads[t := [Inc(o, true, dst, {dst} + pins)]])
    case StartMoveConstruct(t, c, src, pins) =>
      State(s.objs, s.cells[c := Cell(Null, None)], s.threads[t := [MoveOut(c, src, pins)]])
    case StartMoveAssign(t, dst, src, pins) =>
      var was := s.cells[dst].ptr;
      State(s.objs,
            if was.Null? then s.cells else SetPtr(s.cells, dst, Raw(was.o)),
            s.threads[t := [MoveOut(dst, src, pins)] + Releases(was)])
    case StartDestroy(t, c) =>
      State(s.objs, s.cells - {c}, s.threads[t := Releases(s.cells[c].ptr)])
    case DestroyMember(t, c) =>
      State(s.objs, s.cells - {c}, s.threads[t := s.threads[t] + Releases(s.cells[c].ptr)])
  }

  function Advance(s: State, t: nat): State
    requires Enabled(s, Step(t))
  {
    var rest := Rest(s, t);
    match Top(s, t)
    case Adopt(c, o) =>
      State(Incremented(s.objs, o), SetPtr(s.cells, c, Held(o)), s.threads[t := rest])
    case Inc(o, _, dst, uses) =>
      State(Incremented(s.objs, o), s.cells, s.threads[t := rest + [Store(Some(o), dst, uses)]])
    case Store(p, dst, _) =>
      State(s.objs,
            SetPtr(s.cells, dst, if p.Some? then Held(p.value) else Null),
            s.threads[t := rest + Releases(PtrOf(s.cells, dst))])
    case Release(o) =>
      State(Decremented(s.objs, o), s.cells,
            s.threads[t := if o in s.objs && s.objs[o].count == 1 then rest + [Destroying(o)] else rest])
    case Destroying(o) =>
      State(if o in s.objs then s.objs[o := s.objs[o].(phase := Freed)] else s.objs, s.cells, s.threads[t := rest])
    case MoveOut(dst, src, pins) =>
      State(s.objs, Moved(s.cells, dst, src), s.threads[t := rest + [MoveNull(src, pins + ({dst} - {src}))]])
    case MoveNull(src, _) =>
      State(s.objs, SetPtr(s.cells, src, Null), s.threads[t := rest])
  }

  /** ptr_ = ref.ptr_: from here on the reference belongs to `dst`. */
  function Moved(cells: map<CellId, Cell>, dst: CellId, src: CellId): map<CellId, Cell> {
    var p := PtrOf(cells, src);
    if dst == src || p.Null? then SetPtr(cells, dst, p)
    else SetPtr(SetPtr(cells, dst, p), src, Raw(p.o))
  }

  function Do(s: State, a: Action): State
    requires Enabled(s, a)
  {
    if a.Step? then Advance(s, a.t) else Start(s, a)
  }

  function NoFrames(n: nat): seq<seq<Frame>> {
    seq(n, _ => [])
  }

  function Init(n: nat): State {
    State(map[], map[], NoFrames(n))
  }

  predicate Reaches(s: State, acts: seq<Action>, t: State)
    decreases |acts|
  {
    if acts == [] then s == t
    else Enabled(s, acts[0]) && Reaches(Do(s, acts[0]), acts[1..], t)
  }

  // ----- References held and references in flight

  function HeldBy(cells: map<CellId, Cell>, o: ObjId): set<CellId> {
    set c | c in cells && cells[c].ptr == Held(o)
  }

  function Carried(stack: seq<Frame>, o: ObjId): nat {
    if stack == [] then 0
    else Carried(stack[..|stack| - 1], o) + (if Carries(stack[|stack| - 1], o) then 1 else 0)
  }

  function InFlight(threads: seq<seq<Frame>>, o: ObjId): nat {
    if threads == [] then 0
    else InFlight(threads[..|threads| - 1], o) + Carried(threads[|threads| - 1], o)
  }

  /** The references to `o`: those stored in cells plus those in flight. */
  function References(s: State, o: ObjId): nat {
    |HeldBy(s.cells, o)| + InFlight(s.threads, o)
  }

  // ----- Invariants

  predicate FrameOk(objs: map<ObjId, Object>, cells: map<CellId, Cell>, f: Frame) {
    && Uses(f) <= cells.Keys
    && match f
       case Adopt(c, o) => o in objs && objs[o].phase.Fresh? && cells[c] == Cell(Raw(o), None)
       case Inc(o, isNew, dst, uses) =>
         && dst in uses && !cells[dst].ptr.Raw? && Supported(cells, uses, uses)
         && (if isNew then o in objs && objs[o].phase.Fresh? else Pinned(cells, uses, o))
       case Store(p, dst, uses) => dst in uses && !cells[dst].ptr.Raw? && Supported(cells, uses, uses)
       case Release(_) => true
       case Destroying(o) => o in objs && objs[o].phase.Dying?
       case MoveOut(dst, src, pins) =>
         && dst !in pins && src !in pins && Supported(cells, {dst, src} + pins, pins)
         && (dst != src ==> !cells[src].ptr.Raw? && !cells[dst].ptr.Held?)
         && (dst == src ==> !cells[src].ptr.Held?)
       case MoveNull(src, pins) =>
         src !in pins && !cells[src].ptr.Held? && Supported(cells, {src} + pins, pins)
  }

  predicate IsFrame(s: State, t: int, k: int) {
    0 <= t < |s.threads| && 0 <= k < |s.threads[t]|
  }

  predicate FrameAt(s: State, t: int, k: int) {
    IsFrame(s, t, k) ==> FrameOk(s.objs, s.cells, s.threads[t][k])
  }

  ghost predicate FramesOk(s: State) {
    forall t, k :: FrameAt(s, t, k)
  }

  predicate Apart(s: State, t: int, k: int, t': int, k': int) {
    IsFrame(s, t, k) && IsFrame(s, t', k') && (t, k) != (t', k') ==>
      Writes(s.threads[t][k]) !! Uses(s.threads[t'][k'])
  }

  /** No two operations in progress use a cell that one of them writes. */
  ghost predicate Disjoint(s: State) {
    forall t, k, t', k' :: Apart(s, t, k, t', k')
  }

  /** A new object, or one being destroyed, belongs to one frame. */
  predicate OwnsObject(f: Frame, o: ObjId) {
    f == Destroying(o) || (f.Adopt? && f.o == o) || (f.Inc? && f.isNew && f.o == o)
  }

  predicate OneOwner(s: State, t: int, k: int, t': int, k': int, o: ObjId) {
    IsFrame(s, t, k) && IsFrame(s, t', k') ==>
      (OwnsObject(s.threads[t][k], o) && OwnsObject(s.threads[t'][k'], o) ==> t == t' && k == k')
  }

  ghost predicate SoleOwners(s: State) {
    forall t, k, t', k', o :: OneOwner(s, t, k, t', k', o)
  }

  ghost predicate CountsOk(s: State) {
    && (forall o :: o in s.objs ==> s.objs[o].count == References(s, o))
    && (forall o :: o !in s.objs ==> References(s, o) == 0)
    && (forall o | o in s.objs :: (s.objs[o].phase.Live? <==> s.objs[o].count >= 1))
  }

  predicate HomesOk(s: State) {
    forall c | c in s.cells && s.cells[c].home.Some? ::
      s.cells[c].home.value in s.objs && !s.objs[s.cells[c].home.value].phase.Freed?
  }

  predicate RawsOk(s: State) {
    forall c | c in s.cells && s.cells[c].ptr.Raw? ::
      exists t, k | 0 <= t < |s.threads| && 0 <= k < |s.threads[t]| :: c in Writes(s.threads[t][k])
  }

  ghost predicate Inv(s: State) {
    FramesOk(s) && Disjoint(s) && SoleOwners(s) && CountsOk(s) && HomesOk(s) && RawsOk(s)
  }
}
