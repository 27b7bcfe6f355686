/** Conversion between dates, as exact seconds from the reference date, and core timestamps. */
module Dates {
  import opened Outcomes

  const EPOCH: int := 978_307_200                    // NSTimeIntervalSince1970
  const BILLION: int := 1_000_000_000
  const INT64_MAX: int := 0x7fff_ffff_ffff_ffff
  const INT64_MIN: int := -0x8000_0000_0000_0000

  /** Seconds and nanoseconds since 1970. */
  datatype Timestamp = Timestamp(seconds: int, nanoseconds: int)

  /** What the constructor of a core timestamp asserts, and the widths of its fields. */
  predicate Canonical(ts: Timestamp) {
    && INT64_MIN <= ts.seconds <= INT64_MAX
    && -BILLION < ts.nanoseconds < BILLION
    && ((ts.seconds >= 0 && ts.nanoseconds >= 0) || (ts.seconds <= 0 && ts.nanoseconds <= 0))
  }

  const LATEST := Timestamp(INT64_MAX, BILLION - 1)
  const EARLIEST := Timestamp(INT64_MIN, -BILLION + 1)

  /** A cast to an integer type drops the fraction. */
  function Truncated(x: real): (n: int)
    ensures x >= 0.0 ==> 0 <= n && n as real <= x < n as real + 1.0
    ensures x <= 0.0 ==> n <= 0 && n as real - 1.0 < x <= n as real
  {
    if x >= 0.0 then x.Floor else -((-x).Floor)
  }

  // ---- Reference: one count of nanoseconds, split by truncating division --------------------------

  function Total(ts: Timestamp): int {
    ts.seconds * BILLION + ts.nanoseconds
  }

  function Split(total: int): Timestamp {
    if total >= 0 then Timestamp(total / BILLION, total % BILLION)
    else Timestamp(-(-total / BILLION), -(-total % BILLION))
  }

  /** The dates that are not clamped. */
  predicate InWindow(interval: real) {
    (INT64_MIN + EPOCH) as real <= interval < (INT64_MAX - EPOCH) as real
  }

  /** The timestamp of a date: nanoseconds from the reference date, truncated, moved to 1970, split. */
  function ForDate(interval: real): Timestamp {
    if interval >= (INT64_MAX - EPOCH) as real then LATEST
    else if interval < (INT64_MIN + EPOCH) as real then EARLIEST
    else Split(Truncated(interval * BILLION as real) + EPOCH * BILLION)
  }

  /** A canonical timestamp is the split of its count. */
  lemma TotalSplits(ts: Timestamp)
    requires Canonical(ts)
    ensures Split(Total(ts)) == ts
  {}

  // ---- The constants ------------------------------------------------------------------------------

  predicate IsLeap(year: nat) {
    year % 4 == 0 && (year % 100 == 0 ==> year % 400 == 0)
  }

  /** The days from the beginning of one year to that of another. */
  function DaysBetween(year: nat, end: nat): nat
    decreases end - year
  {
    if year >= end then 0 else (if IsLeap(year) then 366 else 365) + DaysBetween(year + 1, end)
  }

  /** How many multiples of `k` lie before a year. */
  function MultiplesBefore(year: nat, k: nat): nat
    requires k > 0
  {
    (year + k - 1) / k
  }

  lemma OneMoreYear(year: nat)
    ensures MultiplesBefore(year + 1, 4) == MultiplesBefore(year, 4) + if year % 4 == 0 then 1 else 0
    ensures MultiplesBefore(year + 1, 100) == MultiplesBefore(year, 100) + if year % 100 == 0 then 1 else 0
    ensures MultiplesBefore(year + 1, 400) == MultiplesBefore(year, 400) + if year % 400 == 0 then 1 else 0
  {}

  function LeapYearsBefore(year: nat): int {
    MultiplesBefore(year, 4) - MultiplesBefore(year, 100) + MultiplesBefore(year, 400)
  }

  lemma {:induction false} DaysAreCounted(year: nat, end: nat)
    requires year <= end
    ensures DaysBetween(year, end) == 365 * (end - year) + LeapYearsBefore(end) - LeapYearsBefore(year)
    decreases end - year
  {
    if year < end {
      DaysAreCounted(year + 1, end);
      OneMoreYear(year);
      hide MultiplesBefore;
      LeapYear(year);
    }
  }

  lemma LeapYear(year: nat)
    ensures (year % 100 == 0 ==> year % 4 == 0) && (year % 400 == 0 ==> year % 100 == 0)
  {
    if year % 100 == 0 { MultipleOfFour(year, 25 * (year / 100)); }
    if year % 400 == 0 { MultipleOfHundred(year, 4 * (year / 400)); }
  }

  lemma MultipleOfFour(year: nat, n: nat)
    requires year == 4 * n
    ensures year % 4 == 0
  {}

  lemma MultipleOfHundred(year: nat, n: nat)
    requires year == 100 * n
    ensures year % 100 == 0
  {}

  /** The reference date, from which intervals are counted, is the beginning of 2001, and that of timestamps 1970. */
  lemma ReferenceDateIs2001()
    ensures ForDate(0.0) == Timestamp(24 * 60 * 60 * DaysBetween(1970, 2001), 0)
  {
    DaysAreCounted(1970, 2001);
  }

  /** Dates out of range are clamped to the first and the last timestamp there are. */
  lemma ClampsAreExtreme(ts: Timestamp)
    requires Canonical(ts)
    ensures Canonical(EARLIEST) && Canonical(LATEST) && Total(EARLIEST) <= Total(ts) <= Total(LATEST)
  {}

  // ---- The conversions ------------------------------------------------------------------------------

  /** Truncating whole seconds first and then the rest is truncating the nanoseconds. */
  lemma TruncatedInParts(x: real)
    ensures Truncated(x * BILLION as real) ==
            Truncated(x) * BILLION + Truncated((x - Truncated(x) as real) * BILLION as real)
  {}

  lemma RestIsBelowASecond(x: real)
    ensures var n := Truncated((x - Truncated(x) as real) * BILLION as real);
      -BILLION < n < BILLION && (x >= 0.0 ==> 0 <= n) && (x <= 0.0 ==> n <= 0)
  {}

  /** What the interval of a date may be: a number, an infinity of either sign, or not a number. */
  datatype Interval = Seconds(value: real) | Infinity(negative: bool) | NotANumber

  predicate AtLeast(x: Interval, y: real) {
    match x case Seconds(value) => value >= y case Infinity(negative) => !negative case NotANumber => false
  }

  predicate Below(x: Interval, y: real) {
    match x case Seconds(value) => value < y case Infinity(negative) => negative case NotANumber => false
  }

  /**
   * `RLMTimestampForNSDate`, step by step, with no date for nil: what is not a number becomes 1970,
   * infinities are clamped.
   */
  method TimestampForDate(date: Option<Interval>) returns (ts: Option<Timestamp>)
    ensures ts.None? <==> date.None?
    ensures date.Some? ==> Canonical(ts.value)
    ensures date.Some? && date.value.Seconds? ==> ts.value == ForDate(date.value.value)
    ensures date.Some? && date.value.Infinity? ==> ts.value == if date.value.negative then EARLIEST else LATEST
    ensures date.Some? && date.value.NotANumber? ==> ts.value == Timestamp(0, 0)
  {
    if date.None? { return None; }
    if date.value.NotANumber? { return Some(Timestamp(0, 0)); }
    if AtLeast(date.value, INT64_MAX as real - EPOCH as real) { return Some(LATEST); }
    if Below(date.value, INT64_MIN as real + EPOCH as real) { return Some(EARLIEST); }
    var timeInterval := date.value.value;

    var seconds := Truncated(timeInterval);
    var nanoseconds := Truncated((timeInterval - seconds as real) * BILLION as real);
    assert INT64_MIN <= seconds <= INT64_MAX && -BILLION < nanoseconds < BILLION
           by { RestIsBelowASecond(timeInterval); }
    seconds := seconds + EPOCH;
    assert INT64_MIN <= seconds <= INT64_MAX;  // neither the cast nor the addition overflows

    RestIsBelowASecond(timeInterval);
    if nanoseconds < 0 && seconds > 0 {
      nanoseconds := nanoseconds + BILLION;
      seconds := seconds - 1;
    }
    ts := Some(Timestamp(seconds, nanoseconds));
    TruncatedInParts(timeInterval);
    TotalSplits(ts.value);
  }

  /** `RLMTimestampToNSDate`: seconds from the reference date. */
  function ToDate(ts: Timestamp): real {
    ts.seconds as real - EPOCH as real + ts.nanoseconds as real / BILLION as real
  }

  // ---- Theorems ---------------------------------------------------------------------------------------

  /** Every date gives a timestamp its constructor accepts. */
  lemma ForDateIsCanonical(interval: real)
    ensures Canonical(ForDate(interval))
  {}

  /** In the window neither the cast to 64 bits nor adding the epoch to it overflows. */
  lemma CastAndAdditionFit(interval: real)
    requires InWindow(interval)
    ensures INT64_MIN <= Truncated(interval) <= INT64_MAX
    ensures INT64_MIN <= Truncated(interval) + EPOCH <= INT64_MAX
  {}

  /** In the window the count of nanoseconds is that of the date, truncated toward the reference date. */
  lemma WindowCountsNanoseconds(interval: real)
    requires InWindow(interval)
    ensures Total(ForDate(interval)) == Truncated(interval * BILLION as real) + EPOCH * BILLION
  {}

  /** So converting there and back moves a date by less than a nanosecond, toward the reference date. */
  lemma ThereAndBackIsClose(interval: real)
    requires InWindow(interval)
    ensures var back := ToDate(ForDate(interval));
      && -1.0 < (back - interval) * BILLION as real < 1.0
      && (interval >= 0.0 ==> 0.0 <= back <= interval)
      && (interval <= 0.0 ==> interval <= back <= 0.0)
  {}

  /** The order of timestamps: seconds first. */
  predicate AtMost(a: Timestamp, b: Timestamp) {
    a.seconds < b.seconds || (a.seconds == b.seconds && a.nanoseconds <= b.nanoseconds)
  }

  lemma OrderIsByTotal(a: Timestamp, b: Timestamp)
    requires Canonical(a) && Canonical(b)
    ensures AtMost(a, b) <==> Total(a) <= Total(b)
  {}

  /** Later dates never get earlier timestamps, clamped or not. */
  lemma ForDateIsMonotone(x: real, y: real)
    requires x <= y
    ensures AtMost(ForDate(x), ForDate(y))
  {}

  lemma ToDateIsTotal(ts: Timestamp)
    ensures ToDate(ts) * BILLION as real == (Total(ts) - EPOCH * BILLION) as real
  {}

  /**
   * A timestamp survives the trip to a date and back exactly when its date is in the window, or it
   * is itself one of the two clamped values.
   */
  lemma RoundTripIff(ts: Timestamp)
    requires Canonical(ts)
    ensures ForDate(ToDate(ts)) == ts <==> InWindow(ToDate(ts)) || ts == LATEST || ts == EARLIEST
  {
    ToDateIsTotal(ts);
    TotalSplits(ts);
    assert Truncated((Total(ts) - EPOCH * BILLION) as real) == Total(ts) - EPOCH * BILLION;
  }

  /** The window in terms of the timestamp, which is narrower at its early end than the type. */
  lemma WindowOfTimestamps(ts: Timestamp)
    requires Canonical(ts)
    ensures InWindow(ToDate(ts)) <==>
            (INT64_MIN + 2 * EPOCH) * BILLION <= Total(ts) < INT64_MAX * BILLION
  {}

  /** The early clamp adds the epoch where it should subtract it: this timestamp does not survive. */
  lemma EarlyTimestampIsClamped()
    ensures var ts := Timestamp(INT64_MIN + 2 * EPOCH - 1, 0);
      Canonical(ts) && ForDate(ToDate(ts)) == EARLIEST != ts
  {}
}
