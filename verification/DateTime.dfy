/** Conversions between epoch seconds and CQL dates and times (date_time.rs), with wrapping casts. */
module DateTime {

  import opened Prelude

  const TWO_31 := 0x8000_0000

  type i64 = n: int | -TWO_63 <= n < TWO_63

  const SECONDS_PER_DAY := 86400
  const NANOSECONDS := 1_000_000_000

  /** Rust's `/` rounds toward zero; its `%` has the sign of the dividend. */
  function Div(a: int, b: int): int
    requires b > 0
  {
    if a >= 0 then a / b else -(-a / b)
  }

  function Rem(a: int, b: int): int
    requires b > 0
  {
    a - b * Div(a, b)
  }

  function AsI64(n: int): i64 {
    var m := n % TWO_64;
    if m < TWO_63 then m else m - TWO_64
  }

  function DateFromEpoch(secs: i64): u32 {
    (Div(secs, SECONDS_PER_DAY) + TWO_31) % TWO_32
  }

  function TimeFromEpoch(secs: i64): i64 {
    NANOSECONDS * Rem(secs, SECONDS_PER_DAY)
  }

  function ToEpoch(date: u32, time: i64): i64 {
    var days: u64 := (date - TWO_31) % TWO_64;
    var seconds: u64 := days * SECONDS_PER_DAY % TWO_64;
    AsI64((seconds + Div(time, NANOSECONDS) % TWO_64) % TWO_64)
  }

  lemma RemRange(secs: int)
    ensures -SECONDS_PER_DAY < Rem(secs, SECONDS_PER_DAY) < SECONDS_PER_DAY
    ensures secs >= 0 ==> Rem(secs, SECONDS_PER_DAY) >= 0
    ensures Rem(secs, SECONDS_PER_DAY) == 0 <==> secs % SECONDS_PER_DAY == 0
    ensures secs < 0 ==> Rem(secs, SECONDS_PER_DAY) <= 0
  {
  }

  lemma DivNanoseconds(r: int)
    ensures Div(NANOSECONDS * r, NANOSECONDS) == r
  {
  }

  /** Wrapping does not matter until the last cast. */
  lemma WrappedSum(d: int, r: int)
    ensures (d % TWO_64 * SECONDS_PER_DAY % TWO_64 + r % TWO_64) % TWO_64 == (d * SECONDS_PER_DAY + r) % TWO_64
  {
  }

  lemma ToEpochIs(date: u32, r: int)
    requires -SECONDS_PER_DAY < r < SECONDS_PER_DAY
    ensures ToEpoch(date, NANOSECONDS * r) == (date - TWO_31) * SECONDS_PER_DAY + r
  {
    DivNanoseconds(r);
    WrappedSum(date - TWO_31, r);
  }

  /** The pieces give back the seconds exactly when the day number fits the 32-bit date. */
  lemma RoundTripExactlyWhen(secs: i64)
    ensures ToEpoch(DateFromEpoch(secs), TimeFromEpoch(secs)) == secs <==>
            -TWO_31 <= Div(secs, SECONDS_PER_DAY) < TWO_31
  {
    RemRange(secs);
    ToEpochIs(DateFromEpoch(secs), Rem(secs, SECONDS_PER_DAY));
  }

  /** 2^31 days after the epoch: the date wraps around. */
  lemma RoundTripFails()
    ensures var secs: i64 := TWO_31 * SECONDS_PER_DAY;
            ToEpoch(DateFromEpoch(secs), TimeFromEpoch(secs)) == -secs
  {
    ToEpochIs(0, 0);
  }

  /** Day 2^31 is the day of the epoch, and the time counts nanoseconds; before the epoch both count
      back from the midnight that follows. */
  lemma PartsAre(days: int, seconds: int)
    requires -0x8000_0000 <= days < 0x8000_0000 && -86400 < seconds < 86400
    requires days > 0 ==> seconds >= 0
    requires days < 0 ==> seconds <= 0
    ensures DateFromEpoch(86400 * days + seconds) == days + 0x8000_0000
    ensures TimeFromEpoch(86400 * days + seconds) == 1_000_000_000 * seconds
  {
    assert Div(86400 * days + seconds, SECONDS_PER_DAY) == days;
  }

  /** The time of day is in the documented range exactly when the seconds are not negative, or fall
      on midnight. */
  lemma TimeInRangeExactlyWhen(secs: i64)
    ensures 0 <= TimeFromEpoch(secs) <= 86_399_999_999_999 <==> secs >= 0 || secs % SECONDS_PER_DAY == 0
  {
    RemRange(secs);
  }

  lemma TimeOutOfRange()
    ensures TimeFromEpoch(-1) == -1_000_000_000
  {
  }
}
