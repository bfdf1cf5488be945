/**
 Time-based UUIDs (scylla-rust-wrapper/src/cql_types/uuid.rs): the lock-free timestamp source of
 `CassUuidGen`, the packing of timestamps into UUIDs, and the two UUID representations.

 64-bit unsigned arithmetic wraps around, as in the source.
 */
module UuidGenerator {

  import opened Prelude

  const TWO_60 := 0x1000_0000_0000_0000
  /** Ticks of 100 nanoseconds between the UUID epoch and the Unix epoch. */
  const TIME_OFFSET := 0x01B2_1DD2_1381_4000

  /** The number of a day of the Gregorian calendar, where years begin in March. */
  function DayNumber(year: nat, month: nat, day: nat): int
    requires 1 <= month <= 12
  {
    var y, m := if month <= 2 then year - 1 else year, (month + 9) % 12;
    365 * y + y / 4 - y / 100 + y / 400 + (153 * m + 2) / 5 + day
  }

  /** The UUID epoch is the day of the Gregorian reform. */
  lemma OffsetIsFromTheReform()
    ensures TIME_OFFSET == (DayNumber(1970, 1, 1) - DayNumber(1582, 10, 15)) * 24 * 60 * 60 * 10_000_000
  {
    assert DayNumber(1970, 1, 1) == 719469;
    assert DayNumber(1582, 10, 15) == 578042;
  }

  function ToMilliseconds(timestamp: u64): u64 {
    timestamp / 10000
  }

  function FromUnixTimestamp(timestamp: u64): u64 {
    (timestamp * 10000 + TIME_OFFSET) % TWO_64
  }

  function WrappingInc(x: u64): u64 {
    (x + 1) % TWO_64
  }

  // ----- The timestamp source, shared by any number of threads

  datatype Pc =
    | Idle
    | Sample                              // SystemTime::now()
    | Load(now: u64)                      // last_timestamp.load
    | CasNow(now: u64, last: u64)         // the wall clock advanced
    | FetchAdd                            // clock rollback, or a stale sample
    | CasNext(last: u64)                  // next tick within the millisecond
    | Taken(ts: u64)                      // on the way to the caller's output
    | Returned(ts: u64)

  /** `issued` lists the timestamps in the order in which `last_timestamp` took them, and `clock`
      is the largest sample so far. */
  datatype State = State(last: u64, threads: seq<Pc>, issued: seq<u64>, clock: u64)

  datatype Action = Call(i: nat) | Step(i: nat, millis: u64)

  function Init(n: nat): State {
    State(0, seq(n, _ => Idle), [], 0)
  }

  predicate Enabled(s: State, a: Action) {
    && a.i < |s.threads|
    && (a.Call? <==> s.threads[a.i].Idle? || s.threads[a.i].Returned?)
  }

  function At(s: State, i: nat, pc: Pc): State
    requires i < |s.threads|
  {
    s.(threads := s.threads[i := pc])
  }

  function Issue(s: State, i: nat, ts: u64): State
    requires i < |s.threads|
  {
    At(s, i, Taken(ts)).(last := ts, issued := s.issued + [ts])
  }

  /** The branch a thread takes after it loaded `last`. */
  function Branch(now: u64, last: u64): Pc {
    if now > last then CasNow(now, last)
    else if ToMilliseconds(now) < ToMilliseconds(last) then FetchAdd
    else if ToMilliseconds(WrappingInc(last)) == ToMilliseconds(last) then CasNext(last)
    else Sample
  }

  function Do(s: State, a: Action): State
    requires Enabled(s, a)
  {
    match a
    case Call(i) => At(s, i, Sample)
    case Step(i, millis) =>
      (match s.threads[i]
       case Sample =>
         var now := FromUnixTimestamp(millis);
         At(s, i, Load(now)).(clock := if now > s.clock then now else s.clock)
       case Load(now) => At(s, i, Branch(now, s.last))
       case CasNow(now, last) => if s.last == last then Issue(s, i, now) else At(s, i, Sample)
       case FetchAdd => Issue(s, i, WrappingInc(s.last))
       case CasNext(last) => if s.last == last then Issue(s, i, WrappingInc(last)) else At(s, i, Sample)
       case Taken(ts) => At(s, i, Returned(ts))
       case _ => s)
  }

  predicate Reaches(s: State, acts: seq<Action>, t: State)
    decreases |acts|
  {
    if acts == [] then s == t
    else Enabled(s, acts[0]) && Reaches(Do(s, acts[0]), acts[1..], t)
  }

  predicate Increasing(xs: seq<u64>) {
    forall i, j | 0 <= i < j < |xs| :: xs[i] < xs[j]
  }

  function Newest(xs: seq<u64>): u64 {
    if xs == [] then 0 else xs[|xs| - 1]
  }

  predicate ThreadOk(s: State, pc: Pc) {
    match pc
    case Load(now) => now <= s.clock
    case CasNow(now, last) => last < now <= s.clock
    case Taken(ts) => ts in s.issued
    case Returned(ts) => ts in s.issued
    case _ => true
  }

  /** The call has taken its timestamp. */
  predicate Holds(pc: Pc) {
    pc.Taken? || pc.Returned?
  }

  /** Thread `i` holds timestamp `x`. */
  predicate Has(s: State, i: nat, x: u64) {
    i < |s.threads| && Holds(s.threads[i]) && s.threads[i].ts == x
  }

  /** No two threads hold the same timestamp. */
  predicate Distinct(s: State) {
    forall i, j | 0 <= i < j < |s.threads| && Holds(s.threads[i]) && Holds(s.threads[j]) ::
      s.threads[i].ts != s.threads[j].ts
  }

  /** Holds as long as the counter has not come near 2^64. */
  predicate Inv(s: State) {
    && Increasing(s.issued) && s.last == Newest(s.issued)
    && s.last <= s.clock + |s.issued|
    && (forall k | 0 <= k < |s.issued| :: s.issued[k] > 0)
    && Distinct(s)
    && forall i | 0 <= i < |s.threads| :: ThreadOk(s, s.threads[i])
  }

  lemma InitInv(n: nat)
    ensures Inv(Init(n))
  {
  }

  lemma Appended(s: State, ts: u64)
    requires Increasing(s.issued) && s.last == Newest(s.issued) && s.last < ts
    ensures Increasing(s.issued + [ts])
  {
    assert forall i | 0 <= i < |s.issued| :: s.issued[i] <= s.last;
  }

  lemma ThreadStaysOk(s: State, t: State, pc: Pc)
    requires ThreadOk(s, pc) && s.clock <= t.clock && s.issued <= t.issued
    ensures ThreadOk(t, pc)
  {
  }

  lemma NewIsLarger(s: State, a: Action)
    requires Inv(s) && Enabled(s, a) && Do(s, a).clock + |Do(s, a).issued| < TWO_64
    ensures var pc := Do(s, a).threads[a.i];
            Holds(pc) && !Has(s, a.i, pc.ts) ==> pc.ts > s.last && forall x | x in s.issued :: x < pc.ts
  {
    assert ThreadOk(s, s.threads[a.i]);
  }

  lemma DistinctKept(s: State, a: Action)
    requires Inv(s) && Enabled(s, a) && Do(s, a).clock + |Do(s, a).issued| < TWO_64
    ensures Distinct(Do(s, a))
  {
    var t := Do(s, a);
    NewIsLarger(s, a);
    forall k | 0 <= k < |s.threads| && k != a.i && Holds(t.threads[k]) && Holds(t.threads[a.i])
      ensures t.threads[k].ts != t.threads[a.i].ts
    {
      assert ThreadOk(s, s.threads[k]);
    }
  }

  lemma InvKept(s: State, a: Action)
    requires Inv(s) && Enabled(s, a) && Do(s, a).clock + |Do(s, a).issued| < TWO_64
    ensures Inv(Do(s, a))
    ensures s.clock <= Do(s, a).clock && s.issued <= Do(s, a).issued && s.last <= Do(s, a).last
  {
    DistinctKept(s, a);
    var t, pc := Do(s, a), s.threads[a.i];
    assert ThreadOk(s, pc);
    if t.issued != s.issued {
      assert s.last < t.last <= t.clock + |t.issued|;
      assert t.issued == s.issued + [t.last];
      Appended(s, t.last);
    }
    forall k | 0 <= k < |s.threads|
      ensures ThreadOk(t, t.threads[k])
    {
      if k != a.i {
        ThreadStaysOk(s, t, s.threads[k]);
      }
    }
  }

  lemma StepGrows(s: State, a: Action)
    requires Enabled(s, a)
    ensures s.clock <= Do(s, a).clock && |s.issued| <= |Do(s, a).issued|
  {
  }

  lemma {:induction false} RunGrows(s: State, acts: seq<Action>, t: State)
    requires Reaches(s, acts, t)
    ensures s.clock <= t.clock && |s.issued| <= |t.issued|
    decreases |acts|
  {
    if acts != [] {
      StepGrows(s, acts[0]);
      RunGrows(Do(s, acts[0]), acts[1..], t);
    }
  }

  lemma {:induction false} InvReached(s: State, acts: seq<Action>, t: State)
    requires Inv(s) && Reaches(s, acts, t) && t.clock + |t.issued| < TWO_64
    ensures Inv(t) && s.issued <= t.issued && s.last <= t.last
    decreases |acts|
  {
    if acts != [] {
      RunGrows(Do(s, acts[0]), acts[1..], t);
      InvKept(s, acts[0]);
      InvReached(Do(s, acts[0]), acts[1..], t);
    }
  }

  // ----- UUIDs

  datatype CassUuid = CassUuid(timeAndVersion: u64, clockSeqAndNode: u64)

  function SetVersion(timestamp: u64, version: nat): u64
    requires version < 16
  {
    timestamp % TWO_60 + version * TWO_60
  }

  function Version(uuid: CassUuid): nat {
    uuid.timeAndVersion / TWO_60
  }

  function GenTime(clockSeqAndNode: u64, ts: u64): CassUuid {
    CassUuid(SetVersion(ts, 1), clockSeqAndNode)
  }

  function GenFromTime(clockSeqAndNode: u64, unixMillis: u64): CassUuid {
    CassUuid(SetVersion(FromUnixTimestamp(unixMillis), 1), clockSeqAndNode)
  }

  function Timestamp(uuid: CassUuid): u64 {
    ToMilliseconds((uuid.timeAndVersion % TWO_60 - TIME_OFFSET) % TWO_64)
  }

  /** The node and the clock sequence of a generator, with the variant of RFC 4122: nodes are masked
      to 48 bits before. */
  function ClockSeqAndNode(clockSeq: u64, node: nat): u64
    requires node < 0x1_0000_0000_0000
  {
    0x8000_0000_0000_0000 + clockSeq % 0x4000 * 0x1_0000_0000_0000 + node
  }

  /** Node, clock sequence and variant come apart again. */
  lemma NodeComesApart(clockSeq: u64, node: nat)
    requires node < 0x1_0000_0000_0000
    ensures var x := ClockSeqAndNode(clockSeq, node);
            && x % 0x1_0000_0000_0000 == node && x / 0x1_0000_0000_0000 % 0x4000 == clockSeq % 0x4000
            && x / 0x4000_0000_0000_0000 == 2
  {
    var low := clockSeq % 0x4000;
    assert ClockSeqAndNode(clockSeq, node) == (0x8000 + low) * 0x1_0000_0000_0000 + node;
  }

  /** Two UUIDs made from times are equal exactly if the generators agree on node and clock sequence
      and the timestamps on the 60 bits kept. */
  lemma SameUuidExactlyWhen(node: u64, x: u64, node': u64, y: u64)
    ensures GenTime(node, x) == GenTime(node', y) <==> node == node' && x % TWO_60 == y % TWO_60
    ensures GenFromTime(node, x) == GenFromTime(node', y) <==>
            node == node' && FromUnixTimestamp(x) % TWO_60 == FromUnixTimestamp(y) % TWO_60
    ensures GenTime(node, x).clockSeqAndNode == GenFromTime(node, y).clockSeqAndNode == node
  {
  }

  /** Every interleaving of threads generating time UUIDs, for any clock: the timestamps increase in
      the order they were taken, a held one is among them, and the UUIDs made from two of them,
      in particular those two threads hold, are different, version 1, and ordered like the timestamps. */
  lemma UuidsAreUnique(n: nat, node: u64, acts: seq<Action>, t: State)
    requires Reaches(Init(n), acts, t) && t.clock + |t.issued| < TWO_60
    ensures Increasing(t.issued) && t.last <= t.clock + |t.issued|
    ensures forall i | 0 <= i < |t.threads| && Holds(t.threads[i]) :: t.threads[i].ts in t.issued
    ensures forall i, j | 0 <= i < j < |t.threads| && Holds(t.threads[i]) && Holds(t.threads[j]) ::
              GenTime(node, t.threads[i].ts) != GenTime(node, t.threads[j].ts)
    ensures forall i, j | 0 <= i < j < |t.issued| ::
              GenTime(node, t.issued[i]).timeAndVersion < GenTime(node, t.issued[j]).timeAndVersion
    ensures forall i | 0 <= i < |t.issued| :: Version(GenTime(node, t.issued[i])) == 1
  {
    InitInv(n);
    InvReached(Init(n), acts, t);
    forall i | 0 <= i < |t.issued|
      ensures t.issued[i] % TWO_60 == t.issued[i] && t.issued[i] < TWO_60
    {
      assert t.issued[i] <= t.last;
    }
    forall i | 0 <= i < |t.threads| && Holds(t.threads[i])
      ensures t.threads[i].ts in t.issued && t.threads[i].ts % TWO_60 == t.threads[i].ts
    {
      assert ThreadOk(t, t.threads[i]);
    }
  }

  lemma {:induction false} OneMore(s: State, acts: seq<Action>, u: State, a: Action)
    requires Reaches(s, acts, u) && Enabled(u, a)
    ensures Reaches(s, acts + [a], Do(u, a))
    decreases |acts|
  {
    if acts == [] {
      assert ([] + [a])[1..] == [];
    } else {
      OneMore(Do(s, acts[0]), acts[1..], u, a);
      assert (acts + [a])[1..] == acts[1..] + [a];
    }
  }

  /** A thread whose clock is ahead calls, samples, loads and takes what it sampled. */
  lemma TakesSample(s: State, acts: seq<Action>, u: State, i: nat, millis: u64) returns (more: seq<Action>, v: State)
    requires Reaches(s, acts, u) && i < |u.threads| && u.threads[i].Idle? && FromUnixTimestamp(millis) > u.last
    ensures Reaches(s, more, v) && v.last == FromUnixTimestamp(millis)
    ensures v.threads == u.threads[i := Taken(FromUnixTimestamp(millis))]
  {
    var now := FromUnixTimestamp(millis);
    OneMore(s, acts, u, Call(i));
    var called := At(u, i, Sample);
    OneMore(s, acts + [Call(i)], called, Step(i, millis));
    var sampled := Do(called, Step(i, millis));
    assert sampled.threads[i] == Load(now);
    OneMore(s, acts + [Call(i)] + [Step(i, millis)], sampled, Step(i, 0));
    var loaded := Do(sampled, Step(i, 0));
    assert loaded.threads[i] == CasNow(now, u.last);
    OneMore(s, acts + [Call(i)] + [Step(i, millis)] + [Step(i, 0)], loaded, Step(i, 0));
    more := acts + [Call(i)] + [Step(i, millis)] + [Step(i, 0)] + [Step(i, 0)];
    v := Do(loaded, Step(i, 0));
  }

  /** Generators that differ in node or clock sequence never issue the same UUID, whatever their
      clocks and however long they run. */
  lemma GeneratorsNeverClash(n: nat, node: u64, acts: seq<Action>, t: State, n': nat, node': u64, acts': seq<Action>, t': State)
    requires Reaches(Init(n), acts, t) && Reaches(Init(n'), acts', t') && node != node'
    ensures forall i, j | 0 <= i < |t.issued| && 0 <= j < |t'.issued| :: GenTime(node, t.issued[i]) != GenTime(node', t'.issued[j])
    ensures forall i, j | 0 <= i < |t.threads| && 0 <= j < |t'.threads| && Holds(t.threads[i]) && Holds(t'.threads[j]) ::
              GenTime(node, t.threads[i].ts) != GenTime(node', t'.threads[j].ts)
  {
    forall x: u64, y: u64 ensures GenTime(node, x) != GenTime(node', y) {
      SameUuidExactlyWhen(node, x, node', y);
    }
  }

  lemma SamplesApart()
    ensures FromUnixTimestamp(0) == TIME_OFFSET && FromUnixTimestamp(0x0100_0000_0000_0000) == TIME_OFFSET + TWO_60
    ensures TIME_OFFSET % TWO_60 == (TIME_OFFSET + TWO_60) % TWO_60
  {
  }

  /** A clock beyond the 60 bits a UUID keeps makes two threads hold the same UUID. */
  lemma UuidsCollide(node: u64) returns (acts: seq<Action>, t: State)
    ensures Reaches(Init(2), acts, t) && |t.threads| == 2 && Holds(t.threads[0]) && Holds(t.threads[1]) && t.threads[0].ts != t.threads[1].ts
    ensures GenTime(node, t.threads[0].ts) == GenTime(node, t.threads[1].ts)
  {
    SamplesApart();
    var first, u := TakesSample(Init(2), [], Init(2), 0, 0);
    acts, t := TakesSample(Init(2), first, u, 1, 0x0100_0000_0000_0000);
    SameUuidExactlyWhen(node, t.threads[0].ts, node, t.threads[1].ts);
  }

  // ----- The order of calls

  /** Where a thread has `x`, it had it before the step or has just taken it. */
  lemma StepTakes(s: State, a: Action, i: nat, x: u64)
    requires Inv(s) && Enabled(s, a) && Do(s, a).clock + |Do(s, a).issued| < TWO_64
    ensures |Do(s, a).threads| == |s.threads|
    ensures Has(Do(s, a), i, x) ==> (Has(s, i, x) && a != Call(i)) || x > s.last
  {
    NewIsLarger(s, a);
  }

  lemma {:induction false} HadOrTaken(s: State, acts: seq<Action>, t: State, i: nat, x: u64)
    requires Inv(s) && Reaches(s, acts, t) && t.clock + |t.issued| < TWO_64
    ensures |t.threads| == |s.threads|
    ensures Has(t, i, x) ==> (Has(s, i, x) && Call(i) !in acts) || x > s.last
    decreases |acts|
  {
    if acts != [] {
      RunGrows(Do(s, acts[0]), acts[1..], t);
      InvKept(s, acts[0]);
      StepTakes(s, acts[0], i, x);
      HadOrTaken(Do(s, acts[0]), acts[1..], t, i, x);
      assert acts == [acts[0]] + acts[1..];
    }
  }

  lemma OrderedUuids(node: u64, x: u64, y: u64)
    requires x < y < TWO_60
    ensures GenTime(node, x).timeAndVersion < GenTime(node, y).timeAndVersion
  {
  }

  lemma HeldAtMostLast(s: State, i: nat)
    requires Inv(s) && i < |s.threads| && Holds(s.threads[i])
    ensures s.threads[i].ts <= s.last
  {
    assert ThreadOk(s, s.threads[i]);
  }

  /** If thread `j` holds its timestamp in `s`, and thread `i` has not taken the one of its call by
      then, or makes another call later, then `i` gets the larger one, and until the timestamp field
      overflows the larger UUID. */
  lemma TakenLaterIsLarger(n: nat, node: u64, before: seq<Action>, s: State, acts: seq<Action>, t: State, i: nat, j: nat)
    requires Reaches(Init(n), before, s) && Reaches(s, acts, t) && t.clock + |t.issued| < TWO_64
    requires i < |s.threads| && j < |s.threads| && Holds(s.threads[j])
    requires !Holds(s.threads[i]) || Call(i) in acts
    ensures |t.threads| == |s.threads| && (Holds(t.threads[i]) ==> s.threads[j].ts < t.threads[i].ts)
    ensures Holds(t.threads[i]) && t.clock + |t.issued| < TWO_60 ==>
              GenTime(node, s.threads[j].ts).timeAndVersion < GenTime(node, t.threads[i].ts).timeAndVersion
  {
    InitInv(n);
    RunGrows(s, acts, t);
    InvReached(Init(n), before, s);
    HeldAtMostLast(s, j);
    HadOrTaken(s, acts, t, i, 0);
    if Holds(t.threads[i]) {
      HadOrTaken(s, acts, t, i, t.threads[i].ts);
      if t.clock + |t.issued| < TWO_60 {
        InvReached(s, acts, t);
        HeldAtMostLast(t, i);
        OrderedUuids(node, s.threads[j].ts, t.threads[i].ts);
      }
    }
  }

  /** A call that starts after another one returned gets a larger timestamp, and a larger UUID until
      the timestamp field overflows. */
  lemma StartedLaterIsLarger(n: nat, node: u64, before: seq<Action>, s: State, acts: seq<Action>, t: State, i: nat, j: nat)
    requires Reaches(Init(n), before, s) && j < |s.threads| && s.threads[j].Returned? && Enabled(s, Call(i))
    requires Reaches(Do(s, Call(i)), acts, t) && t.clock + |t.issued| < TWO_64
    ensures |t.threads| == |s.threads| && (t.threads[i].Returned? ==> s.threads[j].ts < t.threads[i].ts)
    ensures t.threads[i].Returned? && t.clock + |t.issued| < TWO_60 ==>
              GenTime(node, s.threads[j].ts).timeAndVersion < GenTime(node, t.threads[i].ts).timeAndVersion
  {
    assert ([Call(i)] + acts)[1..] == acts;
    TakenLaterIsLarger(n, node, before, s, [Call(i)] + acts, t, i, j);
  }

  /** Calls that overlap can return against the order of their timestamps. */
  lemma ReturnsOutOfOrder() returns (acts: seq<Action>, s: State, t: State)
    ensures Reaches(Init(2), acts, s) && |s.threads| == 2 && s.threads[0].Taken? && s.threads[1].Returned?
    ensures Reaches(s, [Step(0, 0)], t) && |t.threads| == 2 && t.threads[0].Returned? && t.threads[0].ts < s.threads[1].ts
  {
    var first, u := TakesSample(Init(2), [], Init(2), 0, 0);
    var second, v := TakesSample(Init(2), first, u, 1, 1);
    OneMore(Init(2), second, v, Step(1, 0));
    acts, s := second + [Step(1, 0)], Do(v, Step(1, 0));
    OneMore(s, [], s, Step(0, 0));
    assert [] + [Step(0, 0)] == [Step(0, 0)];
    t := Do(s, Step(0, 0));
  }

  /** At some moment of the run, `i` has `x` already and `j` does not have `y` yet. */
  ghost predicate TakesFirst(s: State, acts: seq<Action>, t: State, i: nat, x: u64, j: nat, y: u64) {
    exists k, u | 0 <= k <= |acts| :: Reaches(s, acts[..k], u) && Reaches(u, acts[k..], t) && Has(u, i, x) && !Has(u, j, y)
  }

  lemma EarlierIsSmaller(u: State, acts: seq<Action>, t: State, i: nat, x: u64, j: nat, y: u64)
    requires Inv(u) && Reaches(u, acts, t) && t.clock + |t.issued| < TWO_64
    requires Has(u, i, x) && !Has(u, j, y) && Has(t, j, y)
    ensures x < y
  {
    HeldAtMostLast(u, i);
    HadOrTaken(u, acts, t, j, y);
  }

  lemma OneAtATime(s: State, a: Action, i: nat, x: u64, j: nat, y: u64)
    requires Enabled(s, a) && i != j && !Has(s, i, x) && !Has(s, j, y)
    ensures !(Has(Do(s, a), i, x) && Has(Do(s, a), j, y))
  {
  }

  /** A split of the rest of the run is one of the run. */
  lemma SplitLater(s: State, acts: seq<Action>, k: nat, u: State, t: State)
    requires acts != [] && k < |acts| && Enabled(s, acts[0])
    requires Reaches(Do(s, acts[0]), acts[1..][..k], u) && Reaches(u, acts[1..][k..], t)
    ensures Reaches(s, acts[..k + 1], u) && Reaches(u, acts[k + 1..], t)
  {
    assert acts[..k + 1][1..] == acts[1..][..k] && acts[k + 1..] == acts[1..][k..];
  }

  lemma {:induction false} OneIsFirst(s: State, acts: seq<Action>, t: State, i: nat, x: u64, j: nat, y: u64)
    returns (k: nat, u: State)
    requires Inv(s) && Reaches(s, acts, t) && t.clock + |t.issued| < TWO_64 && i != j
    requires !Has(s, i, x) && !Has(s, j, y) && Has(t, i, x) && Has(t, j, y)
    ensures k <= |acts| && Reaches(s, acts[..k], u) && Reaches(u, acts[k..], t) && Inv(u)
    ensures Has(u, i, x) <==> !Has(u, j, y)
    decreases |acts|
  {
    var next := Do(s, acts[0]);
    RunGrows(next, acts[1..], t);
    InvKept(s, acts[0]);
    OneAtATime(s, acts[0], i, x, j, y);
    if Has(next, i, x) || Has(next, j, y) {
      k, u := 0, next;
      assert acts[1..][..0] == [] && acts[1..][0..] == acts[1..];
    } else {
      k, u := OneIsFirst(next, acts[1..], t, i, x, j, y);
    }
    SplitLater(s, acts, k, u, t);
    k := k + 1;
  }

  /** Of two calls in a run, overlapping or not, the one with the smaller timestamp is exactly the one
      that took it first. */
  lemma OrderIsTakingOrder(n: nat, acts: seq<Action>, t: State, i: nat, x: u64, j: nat, y: u64)
    requires Reaches(Init(n), acts, t) && t.clock + |t.issued| < TWO_64 && i != j && Has(t, i, x) && Has(t, j, y)
    ensures x < y <==> TakesFirst(Init(n), acts, t, i, x, j, y)
  {
    InitInv(n);
    if TakesFirst(Init(n), acts, t, i, x, j, y) {
      var k, u :| 0 <= k <= |acts| && Reaches(Init(n), acts[..k], u) && Reaches(u, acts[k..], t) && Has(u, i, x) && !Has(u, j, y);
      RunGrows(u, acts[k..], t);
      InvReached(Init(n), acts[..k], u);
      EarlierIsSmaller(u, acts[k..], t, i, x, j, y);
    } else {
      var k, u := OneIsFirst(Init(n), acts, t, i, x, j, y);
      assert !Has(u, i, x);
      EarlierIsSmaller(u, acts[k..], t, j, y, i, x);
    }
  }

  /** What is issued from a moment on is larger than everything issued before it. */
  lemma LaterIsLarger(s: State, acts: seq<Action>, t: State, k: nat)
    requires Inv(s) && Reaches(s, acts, t) && t.clock + |t.issued| < TWO_64
    requires |s.issued| <= k < |t.issued|
    ensures t.issued[k] > s.last
  {
    InvReached(s, acts, t);
    if s.issued != [] {
      assert s.last == t.issued[|s.issued| - 1];
    }
  }

  // ----- The clock

  function Max(x: nat, y: nat): nat {
    if x > y then x else y
  }

  /** The timestamp before position `k`; the counter starts at 0. */
  function Previous(xs: seq<u64>, k: nat): u64
    requires k <= |xs|
  {
    if k == 0 then 0 else xs[k - 1]
  }

  /** The last sample of each thread after the action, as a UUID timestamp. */
  function Noted(s: State, a: Action, samples: seq<u64>): seq<u64>
    requires Enabled(s, a) && |samples| == |s.threads|
  {
    if a.Step? && s.threads[a.i].Sample? then samples[a.i := FromUnixTimestamp(a.millis)] else samples
  }

  function Source(s: State, a: Action, samples: seq<u64>): seq<u64>
    requires Enabled(s, a) && |samples| == |s.threads|
  {
    if |Do(s, a).issued| > |s.issued| then [samples[a.i]] else []
  }

  /** For each timestamp taken in the run, the last sample of the thread that took it. */
  function Sources(s: State, acts: seq<Action>, samples: seq<u64>): seq<u64>
    requires |samples| == |s.threads|
    decreases |acts|
  {
    if acts == [] || !Enabled(s, acts[0]) then [] else
    Source(s, acts[0], samples) + Sources(Do(s, acts[0]), acts[1..], Noted(s, acts[0], samples))
  }

  /** What a thread that sampled `x` is about to do, when the counter is at `last`. */
  predicate RoundOk(pc: Pc, x: u64, last: u64) {
    match pc
    case Load(now) => now == x
    case CasNow(now, l) => now == x && l < now
    case FetchAdd => ToMilliseconds(x) < ToMilliseconds(last)
    case CasNext(l) => x <= l && ToMilliseconds(x) == ToMilliseconds(l) == ToMilliseconds(WrappingInc(l))
    case _ => true
  }

  predicate RoundsOk(s: State, samples: seq<u64>) {
    |samples| == |s.threads| && forall i | 0 <= i < |s.threads| :: RoundOk(s.threads[i], samples[i], s.last)
  }

  /** The timestamp is the larger of the sample and the timestamp before it plus one, and stays within
      the millisecond that was sampled, unless the clock is behind the timestamp before it. */
  predicate ExplainedAt(x: u64, previous: u64, ts: u64) {
    && ts == Max(x, previous + 1)
    && (ToMilliseconds(ts) == ToMilliseconds(x) || ToMilliseconds(x) < ToMilliseconds(previous))
  }

  /** `p` holds of each sample, the timestamp before, and the timestamp. */
  predicate Each(p: (u64, u64, u64) -> bool, clocks: seq<u64>, issued: seq<u64>) {
    |clocks| == |issued| && forall k | 0 <= k < |issued| :: p(clocks[k], Previous(issued, k), issued[k])
  }

  lemma RoundsKept(s: State, a: Action, samples: seq<u64>)
    requires Inv(s) && RoundsOk(s, samples) && Enabled(s, a) && Do(s, a).clock + |Do(s, a).issued| < TWO_64
    ensures RoundsOk(Do(s, a), Noted(s, a, samples))
  {
    InvKept(s, a);
    assert RoundOk(s.threads[a.i], samples[a.i], s.last);
  }

  lemma TakenIsExplained(s: State, a: Action, samples: seq<u64>)
    requires Inv(s) && RoundsOk(s, samples) && Enabled(s, a) && Do(s, a).clock + |Do(s, a).issued| < TWO_64
    ensures var t := Do(s, a);
            t.issued == s.issued ||
            (t.issued == s.issued + [t.last] && ExplainedAt(samples[a.i], Previous(s.issued, |s.issued|), t.last))
  {
    assert RoundOk(s.threads[a.i], samples[a.i], s.last) && ThreadOk(s, s.threads[a.i]);
    if Do(s, a).issued != s.issued {
      assert s.last + 1 < TWO_64;
    }
  }

  lemma EachMore(p: (u64, u64, u64) -> bool, clocks: seq<u64>, issued: seq<u64>, x: u64, ts: u64)
    requires Each(p, clocks, issued) && p(x, Previous(issued, |issued|), ts)
    ensures Each(p, clocks + [x], issued + [ts])
  {
    var more := issued + [ts];
    forall k | 0 <= k < |more| ensures p((clocks + [x])[k], Previous(more, k), more[k]) {
      assert Previous(more, k) == Previous(issued, k);
    }
  }

  lemma EachAfter(p: (u64, u64, u64) -> bool, clocks: seq<u64>, issued: seq<u64>, more: seq<u64>, after: seq<u64>, x: u64, ts: u64)
    requires Each(p, clocks, issued) && more == (if |after| > |issued| then [x] else [])
    requires after == issued || (after == issued + [ts] && p(x, Previous(issued, |issued|), ts))
    ensures Each(p, clocks + more, after)
  {
    if after == issued {
      assert clocks + [] == clocks;
    } else {
      EachMore(p, clocks, issued, x, ts);
    }
  }

  lemma SourceExplains(s: State, a: Action, samples: seq<u64>, clocks: seq<u64>)
    requires Inv(s) && RoundsOk(s, samples) && Enabled(s, a) && Do(s, a).clock + |Do(s, a).issued| < TWO_64
    requires Each(ExplainedAt, clocks, s.issued)
    ensures Each(ExplainedAt, clocks + Source(s, a, samples), Do(s, a).issued)
  {
    TakenIsExplained(s, a, samples);
    EachAfter(ExplainedAt, clocks, s.issued, Source(s, a, samples), Do(s, a).issued, samples[a.i], Do(s, a).last);
  }

  lemma Regroup<T>(a: seq<T>, b: seq<T>, c: seq<T>)
    ensures a + b + c == a + (b + c)
  {
  }

  lemma {:induction false} SourcesExplain(s: State, acts: seq<Action>, t: State, samples: seq<u64>, clocks: seq<u64>)
    requires Inv(s) && RoundsOk(s, samples) && Reaches(s, acts, t) && t.clock + |t.issued| < TWO_64
    requires Each(ExplainedAt, clocks, s.issued)
    ensures Each(ExplainedAt, clocks + Sources(s, acts, samples), t.issued)
    decreases |acts|
  {
    if acts == [] {
      assert clocks + [] == clocks;
    } else {
      var u, noted, one := Do(s, acts[0]), Noted(s, acts[0], samples), Source(s, acts[0], samples);
      RunGrows(u, acts[1..], t);
      SourceExplains(s, acts[0], samples, clocks);
      RoundsKept(s, acts[0], samples);
      InvKept(s, acts[0]);
      SourcesExplain(u, acts[1..], t, noted, clocks + one);
      Regroup(clocks, one, Sources(u, acts[1..], noted));
    }
  }

  /** In every run each timestamp is the larger of the sample its thread took in that round and the
      timestamp before it plus one, and within the millisecond sampled unless the clock has fallen
      behind. */
  lemma TimestampsFollowTheClock(n: nat, acts: seq<Action>, t: State, clocks: seq<u64>)
    requires Reaches(Init(n), acts, t) && t.clock + |t.issued| < TWO_64
    requires clocks == Sources(Init(n), acts, seq(n, _ => 0))
    ensures |clocks| == |t.issued|
    ensures forall k | 0 <= k < |t.issued| ::
              && t.issued[k] == Max(clocks[k], Previous(t.issued, k) + 1)
              && (ToMilliseconds(t.issued[k]) == ToMilliseconds(clocks[k]) ||
                  ToMilliseconds(clocks[k]) < ToMilliseconds(Previous(t.issued, k)))
  {
    InitInv(n);
    SourcesExplain(Init(n), acts, t, seq(n, _ => 0), []);
    assert [] + clocks == clocks;
    assert forall k | 0 <= k < |t.issued| :: ExplainedAt(clocks[k], Previous(t.issued, k), t.issued[k]);
  }

  // ----- Timestamps packed into UUIDs and read back

  /** Reading back the time of a UUID made from `unixMillis` gives `unixMillis` exactly when the
      tick count fits the 60 bits of the timestamp field, or lies in the window where it wraps
      around 2^64 and the subtraction of the offset wraps it back. */
  lemma TimestampRoundTrip(node: u64, unixMillis: u64)
    ensures Timestamp(GenFromTime(node, unixMillis)) == unixMillis <==>
            var ticks := unixMillis * 10000 + TIME_OFFSET;
            ticks < TWO_60 || TWO_64 <= ticks < TWO_64 + TIME_OFFSET
  {
    var ticks := unixMillis * 10000 + TIME_OFFSET;
    var field := ticks % TWO_60;
    var k := ticks / TWO_60;
    assert ticks == k * TWO_60 + field;
    FieldOf(ticks);
    assert GenFromTime(node, unixMillis).timeAndVersion % TWO_60 == field;
    if field >= TIME_OFFSET {
      assert (field - TIME_OFFSET) % TWO_64 == field - TIME_OFFSET;
    } else {
      assert (field - TIME_OFFSET) % TWO_64 == field - TIME_OFFSET + TWO_64;
    }
  }

  lemma FieldOf(ticks: nat)
    ensures SetVersion(ticks % TWO_64, 1) % TWO_60 == ticks % TWO_60
  {
    assert TWO_64 == 16 * TWO_60;
    var q := ticks / TWO_64;
    assert ticks == q * 16 * TWO_60 + ticks % TWO_64;
    assert (ticks % TWO_64) % TWO_60 == ticks % TWO_60;
  }

  /** A date for which the round trip fails: its tick count does not fit the timestamp field. */
  lemma TimestampRoundTripFails(node: u64)
    ensures Timestamp(GenFromTime(node, 0x1_0000_0000_0000)) != 0x1_0000_0000_0000
  {
    TimestampRoundTrip(node, 0x1_0000_0000_0000);
  }

  // ----- The two representations of a UUID

  const TWO_16 := 0x1_0000

  /** The 128 bits of a standard UUID, as two 64-bit halves. */
  datatype Uuid = Uuid(upper: u64, lower: u64)

  /** u32::rotate_left(16) */
  function Rotl16(x: u32): u32 {
    x % TWO_16 * TWO_16 + x / TWO_16
  }

  function ToUuid(u: CassUuid): Uuid {
    Uuid(u.timeAndVersion % TWO_32 * TWO_32 + Rotl16(u.timeAndVersion / TWO_32), u.clockSeqAndNode)
  }

  function FromUuid(u: Uuid): CassUuid {
    CassUuid(Rotl16(u.upper % TWO_32) * TWO_32 + u.upper / TWO_32, u.lower)
  }

  /** The fields of section 4.1.2 of RFC 4122 in their order on the wire. */
  function StandardUpper(timeLow: u32, timeMid: nat, timeHiAndVersion: nat): u64
    requires timeMid < TWO_16 && timeHiAndVersion < TWO_16
  {
    timeLow * TWO_32 + timeMid * TWO_16 + timeHiAndVersion
  }

  lemma JoinedHalves(high: u32, low: u32)
    ensures (high * TWO_32 + low) / TWO_32 == high && (high * TWO_32 + low) % TWO_32 == low
  {
  }

  lemma RotateTwice(x: u32)
    ensures Rotl16(Rotl16(x)) == x
  {
    var h, l := x / TWO_16, x % TWO_16;
    assert (l * TWO_16 + h) / TWO_16 == l && (l * TWO_16 + h) % TWO_16 == h;
  }

  /** The conversions are inverse to each other, and take the timestamp, most significant field
      first, to the standard order time_low, time_mid, time_hi_and_version. */
  lemma RepresentationsAgree(p: CassUuid, u: Uuid)
    ensures FromUuid(ToUuid(p)) == p && ToUuid(FromUuid(u)) == u
    ensures var tv := p.timeAndVersion;
            ToUuid(p).upper == StandardUpper(tv % TWO_32, tv / TWO_32 % TWO_16, tv / TWO_32 / TWO_16)
  {
    var ph: u32, pl: u32 := p.timeAndVersion / TWO_32, p.timeAndVersion % TWO_32;
    var uh: u32, ul: u32 := u.upper / TWO_32, u.upper % TWO_32;
    RotateTwice(ph);
    JoinedHalves(pl, Rotl16(ph));
    RotateTwice(ul);
    JoinedHalves(Rotl16(ul), uh);
  }
}
