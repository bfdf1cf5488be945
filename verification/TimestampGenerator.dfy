/**
 The lock-free monotonic timestamp generator (src/timestamp_generator.cpp, .hpp).

 Any number of threads run `next()`. Loading `last_`, reading a clock, each compare-exchange and
 the return are separate steps; both clocks return whatever they like, so the wall clock may jump backwards.
 Timestamps are unbounded integers: values are assumed to stay clear of INT64_MAX.
 */
module TimestampGenerator {

  const NANOSECONDS_PER_MILLISECOND := 1_000_000

  datatype Pc =
    | Idle
    | Load                                            // last_.load()
    | ReadClock(last: int)                            // get_time_since_epoch_us()
    | ReadMonotonic(last: int, current: int)          // get_time_monotonic_ns()
    | LoadWarning(last: int, now: int)                // last_warning_.load()
    | CasWarning(last: int, now: int, seen: int)      // last_warning_.compare_exchange_strong
    | Warn(last: int, now: int)                       // LOG_WARN
    | Cas(last: int, next: int)                       // last_.compare_exchange_strong
    | Taken(ts: int)                                  // return next
    | Returned(ts: int)

  datatype Config = Config(warningThresholdUs: int, warningIntervalMs: int)

  /** The constructor clamps the interval. */
  function MakeConfig(thresholdUs: int, intervalMs: int): Config {
    Config(thresholdUs, if intervalMs < 0 then 0 else intervalMs)
  }

  /** `issued` lists the timestamps in the order of their compare-exchanges, `logged` the clock
      times of the warnings written, and `clock` is the largest wall clock reading, at least 0. */
  datatype State = State(
    last: int,
    lastWarning: int,
    threads: seq<Pc>,
    issued: seq<int>,
    logged: seq<int>,
    clock: int
  )

  function Init(n: nat): State {
    State(0, 0, seq(n, _ => Idle), [], [], 0)
  }

  /** Thread `i` moves; `reading` is what a clock returns to it. */
  datatype Action = Call(i: nat) | Step(i: nat, reading: int)

  predicate Enabled(s: State, a: Action) {
    && a.i < |s.threads|
    && match a
       case Call(i) => s.threads[i].Idle? || s.threads[i].Returned?
       case Step(i, reading) =>
         && !s.threads[i].Idle? && !s.threads[i].Returned?
         && (s.threads[i].ReadMonotonic? ==> reading >= 0)
  }

  function At(s: State, i: nat, pc: Pc): State
    requires i < |s.threads|
  {
    s.(threads := s.threads[i := pc])
  }

  function Do(c: Config, s: State, a: Action): State
    requires Enabled(s, a)
  {
    match a
    case Call(i) => At(s, i, Load)
    case Step(i, reading) =>
      (match s.threads[i]
       case Load => At(s, i, ReadClock(s.last))
       case ReadClock(last) =>
         var s' := s.(clock := if reading > s.clock then reading else s.clock);
         if last >= reading then
           if c.warningThresholdUs >= 0 && last > reading + c.warningThresholdUs
           then At(s', i, ReadMonotonic(last, reading))
           else At(s', i, Cas(last, last + 1))
         else At(s', i, Cas(last, reading))
       case ReadMonotonic(last, _) => At(s, i, LoadWarning(last, reading / NANOSECONDS_PER_MILLISECOND))
       case LoadWarning(last, now) =>
         At(s, i, if now > s.lastWarning + c.warningIntervalMs
                  then CasWarning(last, now, s.lastWarning)
                  else Cas(last, last + 1))
       case CasWarning(last, now, seen) =>
         if s.lastWarning == seen then At(s, i, Warn(last, now)).(lastWarning := now)
         else At(s, i, Cas(last, last + 1))
       case Warn(last, now) => At(s, i, Cas(last, last + 1)).(logged := s.logged + [now])
       case Cas(last, next) =>
         if s.last == last then At(s, i, Taken(next)).(last := next, issued := s.issued + [next])
         else At(s, i, Load)
       case Taken(ts) => At(s, i, Returned(ts))
       case _ => s)
  }

  predicate Reaches(c: Config, s: State, acts: seq<Action>, t: State)
    decreases |acts|
  {
    if acts == [] then s == t
    else Enabled(s, acts[0]) && Reaches(c, Do(c, s, acts[0]), acts[1..], t)
  }

  // ----- Invariants

  predicate Increasing(xs: seq<int>) {
    forall i, j | 0 <= i < j < |xs| :: xs[i] < xs[j]
  }

  function Newest(xs: seq<int>): int {
    if xs == [] then 0 else xs[|xs| - 1]
  }

  predicate IssuedInv(s: State) {
    && Increasing(s.issued)
    && s.last == Newest(s.issued)
    && s.last <= s.clock + |s.issued|
    && 0 <= s.clock
    && (forall i | 0 <= i < |s.issued| :: s.issued[i] > 0)
  }

  /** What thread `pc` computed from is no newer than the present. */
  predicate ThreadOk(s: State, pc: Pc) {
    match pc
    case Idle => true
    case Load => true
    case Taken(ts) => ts in s.issued
    case Returned(ts) => ts in s.issued
    case Cas(last, next) => 0 <= last <= s.last && last < next && (next == last + 1 || next <= s.clock)
    case _ => 0 <= pc.last <= s.last
  }

  /** The compare-exchange of the call has succeeded. */
  predicate Holds(pc: Pc) {
    pc.Taken? || pc.Returned?
  }

  /** Thread `i` holds timestamp `x`. */
  predicate Has(s: State, i: nat, x: int) {
    i < |s.threads| && Holds(s.threads[i]) && s.threads[i].ts == x
  }

  /** No two threads hold the same timestamp. */
  predicate Distinct(s: State) {
    forall i, j | 0 <= i < j < |s.threads| && Holds(s.threads[i]) && Holds(s.threads[j]) ::
      s.threads[i].ts != s.threads[j].ts
  }

  predicate TimestampInv(s: State) {
    IssuedInv(s) && Distinct(s) && forall i | 0 <= i < |s.threads| :: ThreadOk(s, s.threads[i])
  }

  predicate Far(c: Config, x: int, y: int) {
    x > y + c.warningIntervalMs || y > x + c.warningIntervalMs
  }

  /** A thread on the skew path, with what it may assume. */
  predicate SkewOk(c: Config, s: State, pc: Pc) {
    match pc
    case ReadMonotonic(_, _) => c.warningThresholdUs >= 0
    case LoadWarning(_, _) => c.warningThresholdUs >= 0
    case CasWarning(_, now, seen) => c.warningThresholdUs >= 0 && now > seen + c.warningIntervalMs
    case Warn(_, now) =>
      c.warningThresholdUs >= 0 && now <= s.lastWarning &&
      forall k | 0 <= k < |s.logged| :: Far(c, s.logged[k], now)
    case _ => true
  }

  predicate WarningInv(c: Config, s: State) {
    && c.warningIntervalMs >= 0
    && (c.warningThresholdUs < 0 ==> s.logged == [])
    && (forall i | 0 <= i < |s.threads| :: SkewOk(c, s, s.threads[i]))
    && (forall i, j | 0 <= i < j < |s.threads| && s.threads[i].Warn? && s.threads[j].Warn? ::
          Far(c, s.threads[i].now, s.threads[j].now))
    && (forall k | 0 <= k < |s.logged| :: s.logged[k] <= s.lastWarning)
    && (forall j, k | 0 <= j < k < |s.logged| :: Far(c, s.logged[j], s.logged[k]))
  }

  lemma InitInv(n: nat, thresholdUs: int, intervalMs: int)
    ensures TimestampInv(Init(n)) && WarningInv(MakeConfig(thresholdUs, intervalMs), Init(n))
  {
  }

  lemma ThreadStaysOk(s: State, t: State, pc: Pc)
    requires ThreadOk(s, pc) && s.last <= t.last && s.clock <= t.clock && s.issued <= t.issued
    ensures ThreadOk(t, pc)
  {
  }

  lemma NewIsLarger(c: Config, s: State, a: Action)
    requires TimestampInv(s) && Enabled(s, a)
    ensures var pc := Do(c, s, a).threads[a.i];
            Holds(pc) && !Has(s, a.i, pc.ts) ==> pc.ts > s.last && forall x | x in s.issued :: x < pc.ts
  {
    assert ThreadOk(s, s.threads[a.i]);
  }

  lemma DistinctKept(c: Config, s: State, a: Action)
    requires TimestampInv(s) && Enabled(s, a)
    ensures Distinct(Do(c, s, a))
  {
    var t := Do(c, s, a);
    NewIsLarger(c, s, a);
    forall k | 0 <= k < |s.threads| && k != a.i && Holds(t.threads[k]) && Holds(t.threads[a.i])
      ensures t.threads[k].ts != t.threads[a.i].ts
    {
      assert ThreadOk(s, s.threads[k]);
    }
  }

  lemma IssuedKept(c: Config, s: State, a: Action)
    requires TimestampInv(s) && Enabled(s, a)
    ensures IssuedInv(Do(c, s, a)) && s.clock <= Do(c, s, a).clock
    ensures s.last <= Do(c, s, a).last && s.issued <= Do(c, s, a).issued
    ensures forall k | |s.issued| <= k < |Do(c, s, a).issued| :: Do(c, s, a).issued[k] > s.last
  {
    var t, pc := Do(c, s, a), s.threads[a.i];
    assert ThreadOk(s, pc);
    if a.Step? && pc.Cas? && s.last == pc.last {
      assert t.issued[|t.issued| - 1] == pc.next;
    }
  }

  lemma TimestampKept(c: Config, s: State, a: Action)
    requires TimestampInv(s) && Enabled(s, a)
    ensures TimestampInv(Do(c, s, a))
    ensures s.last <= Do(c, s, a).last && s.issued <= Do(c, s, a).issued
    ensures forall k | |s.issued| <= k < |Do(c, s, a).issued| :: Do(c, s, a).issued[k] > s.last
  {
    DistinctKept(c, s, a);
    IssuedKept(c, s, a);
    var t := Do(c, s, a);
    assert ThreadOk(s, s.threads[a.i]);
    forall k | 0 <= k < |s.threads|
      ensures ThreadOk(t, t.threads[k])
    {
      if k != a.i {
        ThreadStaysOk(s, t, s.threads[k]);
      }
    }
  }

  lemma WarningKept(c: Config, s: State, a: Action)
    requires WarningInv(c, s) && Enabled(s, a)
    ensures WarningInv(c, Do(c, s, a))
    ensures s.lastWarning <= Do(c, s, a).lastWarning
  {
    var t, pc := Do(c, s, a), s.threads[a.i];
    assert SkewOk(c, s, pc);
    forall k | 0 <= k < |s.threads|
      ensures SkewOk(c, t, t.threads[k])
    {
      assert SkewOk(c, s, s.threads[k]);
    }
  }

  // ----- What every run keeps

  /** Along every run, timestamps are only appended, and everything issued from a moment on is
      larger than everything issued before it. */
  lemma {:induction false} LaterIsLarger(c: Config, s: State, acts: seq<Action>, t: State)
    requires TimestampInv(s) && Reaches(c, s, acts, t)
    ensures TimestampInv(t) && s.last <= t.last && s.issued <= t.issued
    ensures forall k | |s.issued| <= k < |t.issued| :: t.issued[k] > s.last
    decreases |acts|
  {
    if acts != [] {
      TimestampKept(c, s, acts[0]);
      LaterIsLarger(c, Do(c, s, acts[0]), acts[1..], t);
    }
  }

  /** In every interleaving, for every clock: the timestamps are strictly increasing in
      compare-exchange order; every value held is one of them, and no two calls hold the same one;
      and the generator runs ahead of the clock by at most one per timestamp. */
  lemma TimestampsAreMonotonic(n: nat, thresholdUs: int, intervalMs: int, acts: seq<Action>, t: State)
    requires Reaches(MakeConfig(thresholdUs, intervalMs), Init(n), acts, t)
    ensures Increasing(t.issued) && t.last == Newest(t.issued)
    ensures forall i | 0 <= i < |t.threads| && Holds(t.threads[i]) :: t.threads[i].ts in t.issued
    ensures forall i, j | 0 <= i < j < |t.threads| && Holds(t.threads[i]) && Holds(t.threads[j]) ::
              t.threads[i].ts != t.threads[j].ts
    ensures t.last <= t.clock + |t.issued|
  {
    InitInv(n, thresholdUs, intervalMs);
    LaterIsLarger(MakeConfig(thresholdUs, intervalMs), Init(n), acts, t);
    forall i | 0 <= i < |t.threads|
      ensures ThreadOk(t, t.threads[i])
    {
    }
  }

  // ----- The order of calls

  /** Where a thread has `x`, it had it before the step or has just taken it. */
  lemma StepTakes(c: Config, s: State, a: Action, i: nat, x: int)
    requires TimestampInv(s) && Enabled(s, a)
    ensures |Do(c, s, a).threads| == |s.threads|
    ensures Has(Do(c, s, a), i, x) ==> (Has(s, i, x) && a != Call(i)) || x > s.last
  {
    NewIsLarger(c, s, a);
  }

  lemma {:induction false} HadOrTaken(c: Config, s: State, acts: seq<Action>, t: State, i: nat, x: int)
    requires TimestampInv(s) && Reaches(c, s, acts, t)
    ensures |t.threads| == |s.threads|
    ensures Has(t, i, x) ==> (Has(s, i, x) && Call(i) !in acts) || x > s.last
    decreases |acts|
  {
    if acts != [] {
      TimestampKept(c, s, acts[0]);
      StepTakes(c, s, acts[0], i, x);
      HadOrTaken(c, Do(c, s, acts[0]), acts[1..], t, i, x);
      assert acts == [acts[0]] + acts[1..];
    }
  }

  lemma HeldAtMostLast(s: State, i: nat)
    requires TimestampInv(s) && i < |s.threads| && Holds(s.threads[i])
    ensures s.threads[i].ts <= s.last
  {
    assert ThreadOk(s, s.threads[i]);
  }

  /** If thread `j` holds its timestamp in `s`, and thread `i` has not passed the compare-exchange of
      its call by then, or makes another call later, then `i` gets the larger one. */
  lemma TakenLaterIsLarger(n: nat, thresholdUs: int, intervalMs: int, before: seq<Action>, s: State,
                           acts: seq<Action>, t: State, i: nat, j: nat)
    requires Reaches(MakeConfig(thresholdUs, intervalMs), Init(n), before, s)
    requires Reaches(MakeConfig(thresholdUs, intervalMs), s, acts, t)
    requires i < |s.threads| && j < |s.threads| && Holds(s.threads[j])
    requires !Holds(s.threads[i]) || Call(i) in acts
    ensures |t.threads| == |s.threads| && (Holds(t.threads[i]) ==> s.threads[j].ts < t.threads[i].ts)
  {
    var c := MakeConfig(thresholdUs, intervalMs);
    InitInv(n, thresholdUs, intervalMs);
    LaterIsLarger(c, Init(n), before, s);
    HeldAtMostLast(s, j);
    HadOrTaken(c, s, acts, t, i, 0);
    if Holds(t.threads[i]) {
      HadOrTaken(c, s, acts, t, i, t.threads[i].ts);
    }
  }

  /** A call that starts after another one returned returns a larger timestamp. */
  lemma StartedLaterIsLarger(n: nat, thresholdUs: int, intervalMs: int, before: seq<Action>, s: State,
                             acts: seq<Action>, t: State, i: nat, j: nat)
    requires Reaches(MakeConfig(thresholdUs, intervalMs), Init(n), before, s)
    requires j < |s.threads| && s.threads[j].Returned? && Enabled(s, Call(i))
    requires Reaches(MakeConfig(thresholdUs, intervalMs), Do(MakeConfig(thresholdUs, intervalMs), s, Call(i)), acts, t)
    ensures |t.threads| == |s.threads| && (t.threads[i].Returned? ==> s.threads[j].ts < t.threads[i].ts)
  {
    assert ([Call(i)] + acts)[1..] == acts;
    TakenLaterIsLarger(n, thresholdUs, intervalMs, before, s, [Call(i)] + acts, t, i, j);
  }

  lemma {:induction false} OneMore(c: Config, s: State, acts: seq<Action>, u: State, a: Action)
    requires Reaches(c, s, acts, u) && Enabled(u, a)
    ensures Reaches(c, s, acts + [a], Do(c, u, a))
    decreases |acts|
  {
    if acts == [] {
      assert ([] + [a])[1..] == [];
    } else {
      OneMore(c, Do(c, s, acts[0]), acts[1..], u, a);
      assert (acts + [a])[1..] == acts[1..] + [a];
    }
  }

  /** A thread without skew calls, loads, reads the clock and takes what it read. */
  lemma TakesReading(c: Config, s: State, acts: seq<Action>, u: State, i: nat, reading: int) returns (more: seq<Action>, v: State)
    requires Reaches(c, s, acts, u) && i < |u.threads| && u.threads[i].Idle? && reading > u.last
    ensures Reaches(c, s, more, v) && v.threads == u.threads[i := Taken(reading)] && v.last == reading
  {
    OneMore(c, s, acts, u, Call(i));
    var called := At(u, i, Load);
    OneMore(c, s, acts + [Call(i)], called, Step(i, 0));
    var loaded := At(called, i, ReadClock(u.last));
    OneMore(c, s, acts + [Call(i)] + [Step(i, 0)], loaded, Step(i, reading));
    var computed := Do(c, loaded, Step(i, reading));
    assert computed.threads[i] == Cas(u.last, reading);
    OneMore(c, s, acts + [Call(i)] + [Step(i, 0)] + [Step(i, reading)], computed, Step(i, 0));
    more := acts + [Call(i)] + [Step(i, 0)] + [Step(i, reading)] + [Step(i, 0)];
    v := Do(c, computed, Step(i, 0));
  }

  /** Calls that overlap can return against the order of their timestamps: thread 0 takes 5 and is
      suspended, thread 1 takes 6 and returns it, and then thread 0 returns 5. */
  lemma ReturnsOutOfOrder(c: Config) returns (acts: seq<Action>, s: State, t: State)
    ensures Reaches(c, Init(2), acts, s) && s.threads == [Taken(5), Returned(6)]
    ensures Reaches(c, s, [Step(0, 0)], t) && t.threads == [Returned(5), Returned(6)]
  {
    var first, u := TakesReading(c, Init(2), [], Init(2), 0, 5);
    var second, v := TakesReading(c, Init(2), first, u, 1, 6);
    OneMore(c, Init(2), second, v, Step(1, 0));
    acts, s := second + [Step(1, 0)], Do(c, v, Step(1, 0));
    OneMore(c, s, [], s, Step(0, 0));
    assert [] + [Step(0, 0)] == [Step(0, 0)];
    t := Do(c, s, Step(0, 0));
  }

  /** At some moment of the run, `i` has `x` already and `j` does not have `y` yet. */
  ghost predicate TakesFirst(c: Config, s: State, acts: seq<Action>, t: State, i: nat, x: int, j: nat, y: int) {
    exists k, u | 0 <= k <= |acts| :: Reaches(c, s, acts[..k], u) && Reaches(c, u, acts[k..], t) && Has(u, i, x) && !Has(u, j, y)
  }

  lemma EarlierIsSmaller(c: Config, u: State, acts: seq<Action>, t: State, i: nat, x: int, j: nat, y: int)
    requires TimestampInv(u) && Reaches(c, u, acts, t) && Has(u, i, x) && !Has(u, j, y) && Has(t, j, y)
    ensures x < y
  {
    HeldAtMostLast(u, i);
    HadOrTaken(c, u, acts, t, j, y);
  }

  lemma OneAtATime(c: Config, s: State, a: Action, i: nat, x: int, j: nat, y: int)
    requires Enabled(s, a) && i != j && !Has(s, i, x) && !Has(s, j, y)
    ensures !(Has(Do(c, s, a), i, x) && Has(Do(c, s, a), j, y))
  {
  }

  /** A split of the rest of the run is one of the run. */
  lemma SplitLater(c: Config, s: State, acts: seq<Action>, k: nat, u: State, t: State)
    requires acts != [] && k < |acts| && Enabled(s, acts[0])
    requires Reaches(c, Do(c, s, acts[0]), acts[1..][..k], u) && Reaches(c, u, acts[1..][k..], t)
    ensures Reaches(c, s, acts[..k + 1], u) && Reaches(c, u, acts[k + 1..], t)
  {
    assert acts[..k + 1][1..] == acts[1..][..k] && acts[k + 1..] == acts[1..][k..];
  }

  lemma {:induction false} OneIsFirst(c: Config, s: State, acts: seq<Action>, t: State, i: nat, x: int, j: nat, y: int)
    returns (k: nat, u: State)
    requires TimestampInv(s) && Reaches(c, s, acts, t) && i != j
    requires !Has(s, i, x) && !Has(s, j, y) && Has(t, i, x) && Has(t, j, y)
    ensures k <= |acts| && Reaches(c, s, acts[..k], u) && Reaches(c, u, acts[k..], t) && TimestampInv(u)
    ensures Has(u, i, x) <==> !Has(u, j, y)
    decreases |acts|
  {
    var next := Do(c, s, acts[0]);
    TimestampKept(c, s, acts[0]);
    OneAtATime(c, s, acts[0], i, x, j, y);
    if Has(next, i, x) || Has(next, j, y) {
      k, u := 0, next;
      assert acts[1..][..0] == [] && acts[1..][0..] == acts[1..];
    } else {
      k, u := OneIsFirst(c, next, acts[1..], t, i, x, j, y);
    }
    SplitLater(c, s, acts, k, u, t);
    k := k + 1;
  }

  /** Of two calls in a run, overlapping or not, the one with the smaller timestamp is exactly the one
      whose compare-exchange came first. */
  lemma OrderIsTakingOrder(n: nat, thresholdUs: int, intervalMs: int, acts: seq<Action>, t: State, i: nat, x: int, j: nat, y: int)
    requires Reaches(MakeConfig(thresholdUs, intervalMs), Init(n), acts, t) && i != j && Has(t, i, x) && Has(t, j, y)
    ensures x < y <==> TakesFirst(MakeConfig(thresholdUs, intervalMs), Init(n), acts, t, i, x, j, y)
  {
    var c := MakeConfig(thresholdUs, intervalMs);
    InitInv(n, thresholdUs, intervalMs);
    if TakesFirst(c, Init(n), acts, t, i, x, j, y) {
      var k, u :| 0 <= k <= |acts| && Reaches(c, Init(n), acts[..k], u) && Reaches(c, u, acts[k..], t) && Has(u, i, x) && !Has(u, j, y);
      LaterIsLarger(c, Init(n), acts[..k], u);
      EarlierIsSmaller(c, u, acts[k..], t, i, x, j, y);
    } else {
      var k, u := OneIsFirst(c, Init(n), acts, t, i, x, j, y);
      assert !Has(u, i, x);
      EarlierIsSmaller(c, u, acts[k..], t, j, y, i, x);
    }
  }

  // ----- The clock

  function Max(x: int, y: int): int {
    if x > y then x else y
  }

  /** The timestamp before position `k`; `last_` starts at 0. */
  function Previous(xs: seq<int>, k: nat): int
    requires k <= |xs|
  {
    if k == 0 then 0 else xs[k - 1]
  }

  /** The last wall clock reading of each thread after the action. */
  function Noted(s: State, a: Action, readings: seq<int>): seq<int>
    requires Enabled(s, a) && |readings| == |s.threads|
  {
    if a.Step? && s.threads[a.i].ReadClock? then readings[a.i := a.reading] else readings
  }

  /** For each timestamp taken in the run, the last reading of the wall clock by the thread that took it. */
  function Sources(c: Config, s: State, acts: seq<Action>, readings: seq<int>): seq<int>
    requires |readings| == |s.threads|
    decreases |acts|
  {
    if acts == [] || !Enabled(s, acts[0]) then [] else
    Source(c, s, acts[0], readings) + Sources(c, Do(c, s, acts[0]), acts[1..], Noted(s, acts[0], readings))
  }

  function Source(c: Config, s: State, a: Action, readings: seq<int>): seq<int>
    requires Enabled(s, a) && |readings| == |s.threads|
  {
    if |Do(c, s, a).issued| > |s.issued| then [readings[a.i]] else []
  }

  /** What a thread that read `x` is about to take. */
  predicate RoundOk(pc: Pc, x: int) {
    match pc
    case ReadMonotonic(last, current) => current == x && last >= x
    case LoadWarning(last, _) => last >= x
    case CasWarning(last, _, _) => last >= x
    case Warn(last, _) => last >= x
    case Cas(last, next) => next == Max(x, last + 1)
    case _ => true
  }

  predicate RoundsOk(s: State, readings: seq<int>) {
    && |readings| == |s.threads| && s.last == Previous(s.issued, |s.issued|)
    && forall i | 0 <= i < |s.threads| :: RoundOk(s.threads[i], readings[i])
  }

  lemma RoundsKept(c: Config, s: State, a: Action, readings: seq<int>)
    requires RoundsOk(s, readings) && Enabled(s, a)
    ensures var t := Do(c, s, a);
            && RoundsOk(t, Noted(s, a, readings))
            && (t.issued == s.issued || t.issued == s.issued + [Max(readings[a.i], s.last + 1)])
  {
    assert RoundOk(s.threads[a.i], readings[a.i]);
  }

  /** Each timestamp is the larger of the reading behind it and the timestamp before it plus one. */
  predicate Explained(clocks: seq<int>, issued: seq<int>) {
    |clocks| == |issued| && forall k | 0 <= k < |issued| :: issued[k] == Max(clocks[k], Previous(issued, k) + 1)
  }

  lemma ExplainedMore(clocks: seq<int>, issued: seq<int>, x: int)
    requires Explained(clocks, issued)
    ensures Explained(clocks + [x], issued + [Max(x, Previous(issued, |issued|) + 1)])
  {
    var more := issued + [Max(x, Previous(issued, |issued|) + 1)];
    forall k | 0 <= k < |more| ensures more[k] == Max((clocks + [x])[k], Previous(more, k) + 1) {
      assert Previous(more, k) == Previous(issued, k);
    }
  }

  lemma SourceExplains(c: Config, s: State, a: Action, readings: seq<int>, clocks: seq<int>)
    requires RoundsOk(s, readings) && Enabled(s, a) && Explained(clocks, s.issued)
    ensures RoundsOk(Do(c, s, a), Noted(s, a, readings))
    ensures Explained(clocks + Source(c, s, a, readings), Do(c, s, a).issued)
  {
    RoundsKept(c, s, a, readings);
    if Source(c, s, a, readings) == [] {
      assert clocks + [] == clocks;
    } else {
      ExplainedMore(clocks, s.issued, readings[a.i]);
    }
  }

  lemma Regroup<T>(a: seq<T>, b: seq<T>, c: seq<T>)
    ensures a + b + c == a + (b + c)
  {
  }

  lemma {:induction false} SourcesExplain(c: Config, s: State, acts: seq<Action>, t: State, readings: seq<int>, clocks: seq<int>)
    requires RoundsOk(s, readings) && Reaches(c, s, acts, t) && Explained(clocks, s.issued)
    ensures Explained(clocks + Sources(c, s, acts, readings), t.issued)
    decreases |acts|
  {
    if acts == [] {
      assert clocks + [] == clocks;
    } else {
      var u, noted, one := Do(c, s, acts[0]), Noted(s, acts[0], readings), Source(c, s, acts[0], readings);
      SourceExplains(c, s, acts[0], readings, clocks);
      SourcesExplain(c, u, acts[1..], t, noted, clocks + one);
      Regroup(clocks, one, Sources(c, u, acts[1..], noted));
    }
  }

  /** In every run each timestamp is the larger of the reading its thread took in that round and the
      timestamp before it plus one. */
  lemma TimestampsFollowTheClock(n: nat, thresholdUs: int, intervalMs: int, acts: seq<Action>, t: State, clocks: seq<int>)
    requires Reaches(MakeConfig(thresholdUs, intervalMs), Init(n), acts, t)
    requires clocks == Sources(MakeConfig(thresholdUs, intervalMs), Init(n), acts, seq(n, _ => 0))
    ensures |clocks| == |t.issued|
    ensures forall k | 0 <= k < |t.issued| :: t.issued[k] == Max(clocks[k], Previous(t.issued, k) + 1)
  {
    SourcesExplain(MakeConfig(thresholdUs, intervalMs), Init(n), acts, t, seq(n, _ => 0), []);
    assert [] + clocks == clocks;
  }

  predicate Rising(clocks: seq<int>) {
    forall k | 0 <= k < |clocks| :: clocks[k] > Previous(clocks, k)
  }

  lemma {:induction false} RisingClockIsCopied(clocks: seq<int>, issued: seq<int>, k: nat)
    requires Explained(clocks, issued) && Rising(clocks) && k < |issued|
    ensures issued[k] == clocks[k]
  {
    assert issued[k] == Max(clocks[k], Previous(issued, k) + 1) && clocks[k] > Previous(clocks, k);
    if k > 0 {
      RisingClockIsCopied(clocks, issued, k - 1);
    }
  }

  /** In a run whose readings increase from one timestamp to the next, every call gets the time. */
  lemma TimestampsAreTheTime(n: nat, thresholdUs: int, intervalMs: int, acts: seq<Action>, t: State, clocks: seq<int>)
    requires Reaches(MakeConfig(thresholdUs, intervalMs), Init(n), acts, t)
    requires clocks == Sources(MakeConfig(thresholdUs, intervalMs), Init(n), acts, seq(n, _ => 0)) && Rising(clocks)
    ensures t.issued == clocks
  {
    TimestampsFollowTheClock(n, thresholdUs, intervalMs, acts, t, clocks);
    forall k | 0 <= k < |clocks| ensures t.issued[k] == clocks[k] {
      RisingClockIsCopied(clocks, t.issued, k);
    }
  }

  // ----- A call that is left alone

  /** A call that finds this skew at this time writes a warning. */
  predicate Warns(c: Config, s: State, reading: int, now: int) {
    c.warningThresholdUs >= 0 && s.last > reading + c.warningThresholdUs && now > s.lastWarning + c.warningIntervalMs
  }

  predicate OnlyBy(acts: seq<Action>, i: nat) {
    forall k | 0 <= k < |acts| :: acts[k].i == i
  }

  lemma Extend(c: Config, s: State, acts: seq<Action>, u: State, a: Action, i: nat)
    requires Reaches(c, s, acts, u) && OnlyBy(acts, i) && Enabled(u, a) && a.i == i
    ensures Reaches(c, s, acts + [a], Do(c, u, a)) && OnlyBy(acts + [a], i)
  {
    OneMore(c, s, acts, u, a);
  }

  /** From the clock reading to the compare-exchange. */
  lemma ComputesAlone(c: Config, s: State, acts: seq<Action>, u: State, i: nat, reading: int, mono: nat) returns (more: seq<Action>, v: State)
    requires Reaches(c, s, acts, u) && OnlyBy(acts, i) && i < |u.threads| && u.threads[i] == ReadClock(u.last)
    ensures Reaches(c, s, more, v) && OnlyBy(more, i)
    ensures var now, warns := mono / 1_000_000, Warns(c, u, reading, mono / 1_000_000);
            && v.threads == u.threads[i := Cas(u.last, Max(reading, u.last + 1))] && v.last == u.last && v.issued == u.issued
            && v.lastWarning == (if warns then now else u.lastWarning) && v.logged == u.logged + (if warns then [now] else [])
  {
    var now := mono / 1_000_000;
    Extend(c, s, acts, u, Step(i, reading), i);
    more, v := acts + [Step(i, reading)], Do(c, u, Step(i, reading));
    if v.threads[i].ReadMonotonic? {
      Extend(c, s, more, v, Step(i, mono), i);
      more, v := more + [Step(i, mono)], Do(c, v, Step(i, mono));
      assert v.threads[i] == LoadWarning(u.last, now);
      Extend(c, s, more, v, Step(i, 0), i);
      more, v := more + [Step(i, 0)], Do(c, v, Step(i, 0));
      if v.threads[i].CasWarning? {
        Extend(c, s, more, v, Step(i, 0), i);
        more, v := more + [Step(i, 0)], Do(c, v, Step(i, 0));
        Extend(c, s, more, v, Step(i, 0), i);
        more, v := more + [Step(i, 0)], Do(c, v, Step(i, 0));
      }
    }
  }

  /** What a call does when nobody interferes: the timestamp, and the warning exactly if the clock is
      behind by more than the threshold and the last warning lies more than the interval back. */
  lemma CallAlone(c: Config, s: State, i: nat, reading: int, mono: nat) returns (acts: seq<Action>, t: State)
    requires Enabled(s, Call(i))
    ensures Reaches(c, s, acts, t) && OnlyBy(acts, i)
    ensures var ts, now := Max(reading, s.last + 1), mono / 1_000_000;
            && t.threads == s.threads[i := Returned(ts)] && t.last == ts && t.issued == s.issued + [ts]
            && t.lastWarning == (if Warns(c, s, reading, now) then now else s.lastWarning)
            && t.logged == s.logged + (if Warns(c, s, reading, now) then [now] else [])
  {
    Extend(c, s, [], s, Call(i), i);
    acts, t := [] + [Call(i)], Do(c, s, Call(i));
    Extend(c, s, acts, t, Step(i, 0), i);
    acts, t := acts + [Step(i, 0)], Do(c, t, Step(i, 0));
    acts, t := ComputesAlone(c, s, acts, t, i, reading, mono);
    Extend(c, s, acts, t, Step(i, 0), i);
    acts, t := acts + [Step(i, 0)], Do(c, t, Step(i, 0));
    Extend(c, s, acts, t, Step(i, 0), i);
    acts, t := acts + [Step(i, 0)], Do(c, t, Step(i, 0));
  }

  // ----- Progress

  /** If the compare-exchange of a thread that loaded `last_` in `s` fails in `t`, some other thread
      obtained a timestamp in between. */
  lemma FailedCasMeansProgress(c: Config, s: State, acts: seq<Action>, t: State, i: nat, next: int)
    requires TimestampInv(s) && Reaches(c, s, acts, t)
    requires i < |t.threads| && t.threads[i] == Cas(s.last, next) && t.last != s.last
    ensures |t.issued| > |s.issued|
  {
    LaterIsLarger(c, s, acts, t);
  }

  const STALE := 8
  const MOST_STEPS := 14

  /** The steps a thread has left until it takes a timestamp, while nobody else takes one. */
  function StepsLeft(pc: Pc, last: int): nat {
    match pc
    case Idle => 8
    case Returned(_) => 8
    case Taken(_) => 9
    case Load => 7
    case ReadClock(l) => 6 + Extra(l, last)
    case ReadMonotonic(l, _) => 5 + Extra(l, last)
    case LoadWarning(l, _) => 4 + Extra(l, last)
    case CasWarning(l, _, _) => 3 + Extra(l, last)
    case Warn(l, _) => 2 + Extra(l, last)
    case Cas(l, _) => 1 + Extra(l, last)
  }

  /** A stale value costs another round. */
  function Extra(l: int, last: int): nat {
    if l == last then 0 else STALE
  }

  function AllStepsLeft(threads: seq<Pc>, last: int): nat {
    if threads == [] then 0 else StepsLeft(threads[0], last) + AllStepsLeft(threads[1..], last)
  }

  lemma {:induction false} AtMost(threads: seq<Pc>, last: int)
    ensures AllStepsLeft(threads, last) <= MOST_STEPS * |threads|
  {
    if threads != [] {
      AtMost(threads[1..], last);
    }
  }

  lemma {:induction false} OneLess(threads: seq<Pc>, last: int, i: nat, pc: Pc)
    requires i < |threads| && StepsLeft(pc, last) < StepsLeft(threads[i], last)
    ensures AllStepsLeft(threads[i := pc], last) < AllStepsLeft(threads, last)
  {
    if i == 0 {
      assert threads[0 := pc][1..] == threads[1..];
    } else {
      assert threads[i := pc][1..] == threads[1..][i - 1 := pc];
      OneLess(threads[1..], last, i - 1, pc);
    }
  }

  lemma StepOrTake(c: Config, s: State, a: Action)
    requires Enabled(s, a)
    ensures var t := Do(c, s, a);
            |t.issued| > |s.issued| ||
            (t.issued == s.issued && t.last == s.last && |t.threads| == |s.threads| &&
             AllStepsLeft(t.threads, s.last) < AllStepsLeft(s.threads, s.last))
  {
    var t := Do(c, s, a);
    if |t.issued| <= |s.issued| {
      assert t.threads == s.threads[a.i := t.threads[a.i]];
      OneLess(s.threads, s.last, a.i, t.threads[a.i]);
    }
  }

  lemma {:induction false} RunOrTake(c: Config, s: State, acts: seq<Action>, t: State)
    requires Reaches(c, s, acts, t)
    ensures |t.issued| > |s.issued| || (|t.issued| == |s.issued| && |acts| <= AllStepsLeft(s.threads, s.last))
    decreases |acts|
  {
    if acts != [] {
      StepOrTake(c, s, acts[0]);
      RunOrTake(c, Do(c, s, acts[0]), acts[1..], t);
    }
  }

  /** Lock freedom: whatever the schedule and the clocks, within more than 14 steps per thread, new
      calls included, some thread takes a timestamp. */
  lemma LockFree(c: Config, s: State, acts: seq<Action>, t: State)
    requires Reaches(c, s, acts, t) && |acts| > MOST_STEPS * |s.threads|
    ensures |t.issued| > |s.issued|
  {
    RunOrTake(c, s, acts, t);
    AtMost(s.threads, s.last);
  }

  lemma {:induction false} WarningReached(c: Config, s: State, acts: seq<Action>, t: State)
    requires WarningInv(c, s) && Reaches(c, s, acts, t)
    ensures WarningInv(c, t) && s.lastWarning <= t.lastWarning
    decreases |acts|
  {
    if acts != [] {
      WarningKept(c, s, acts[0]);
      WarningReached(c, Do(c, s, acts[0]), acts[1..], t);
    }
  }

  /** Any two warnings logged carry times more than the interval apart, whatever the interleaving
      and even if they are written out of order; a negative threshold disables them. */
  lemma WarningsAreRateLimited(n: nat, thresholdUs: int, intervalMs: int, acts: seq<Action>, t: State)
    requires Reaches(MakeConfig(thresholdUs, intervalMs), Init(n), acts, t)
    ensures forall j, k | 0 <= j < k < |t.logged| ::
              t.logged[j] > t.logged[k] + MakeConfig(thresholdUs, intervalMs).warningIntervalMs ||
              t.logged[k] > t.logged[j] + MakeConfig(thresholdUs, intervalMs).warningIntervalMs
    ensures forall k | 0 <= k < |t.logged| :: t.logged[k] <= t.lastWarning
    ensures thresholdUs < 0 ==> t.logged == []
  {
    var c := MakeConfig(thresholdUs, intervalMs);
    InitInv(n, thresholdUs, intervalMs);
    WarningReached(c, Init(n), acts, t);
    forall j, k | 0 <= j < k < |t.logged|
      ensures t.logged[j] > t.logged[k] + c.warningIntervalMs || t.logged[k] > t.logged[j] + c.warningIntervalMs
    {
      assert Far(c, t.logged[j], t.logged[k]);
    }
  }
}
