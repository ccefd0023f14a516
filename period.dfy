/** The period resolver `determine_period`: maps a timestamp and a duration
    to the start of the timestamp's bucket for that duration.

    Timestamps are whole seconds since 1970-01-01T00:00:00 UTC (a Thursday).
    The calendar date `(year, month, day)` of a `datetime` is represented by
    its day number since that epoch, which determines it one to one. */
module Period {
  import opened Enumerations

  /** A `datetime`: `secs` seconds after the epoch, read as UTC wall-clock
      time; `utc` is false for a tz-naive value. */
  datatype Stamp = Stamp(secs: int, utc: bool)

  // ---------------------------------------------------------------------------
  // Calendar fields of an instant
  // ---------------------------------------------------------------------------

  function Second(s: int): int { s % 60 }
  function Minute(s: int): int { s / 60 % 60 }
  function Hour(s: int): int { s / 3600 % 24 }
  /** Days since 1970-01-01; stands for `(ts.year, ts.month, ts.day)`. */
  function Day(s: int): int { s / 86400 }

  /** `datetime(year, month, day, hour, minute, second)` as epoch seconds. */
  function DateTime(day: int, hour: int, minute: int, second: int): int
  {
    day * 86400 + hour * 3600 + minute * 60 + second
  }

  /** Day of the ISO 8601 week, 0 for Monday through 6 for Sunday
      (1970-01-01 was a Thursday). */
  function Weekday(day: int): int { (day + 3) % 7 }

  /** The Monday that starts the ISO 8601 week (ISO 8601:2004, section
      4.1.4) containing `day`: `fromisocalendar(year, week, 1)`. */
  function IsoMonday(day: int): int { day - Weekday(day) }

  /** `IsoMonday(day)` is a Monday, at most six days before `day`. */
  lemma MondayOfWeek(day: int)
    ensures Weekday(IsoMonday(day)) == 0
    ensures IsoMonday(day) <= day < IsoMonday(day) + 7
  {
    var monday := IsoMonday(day);
    assert day + 3 == 7 * ((day + 3) / 7) + Weekday(day);
    assert monday + 3 == 7 * ((day + 3) / 7);
  }

  /** An instant is recovered from its calendar fields, and the fields are in
      range. */
  lemma FieldsOfInstant(s: int)
    ensures 0 <= Second(s) < 60 && 0 <= Minute(s) < 60 && 0 <= Hour(s) < 24
    ensures DateTime(Day(s), Hour(s), Minute(s), Second(s)) == s
  {
    var q := s / 60;
    assert s == 60 * q + Second(s);
    var q2 := q / 60;
    assert q == 60 * q2 + Minute(s);
    assert s / 3600 == q2;
    assert q2 == 24 * (q2 / 24) + Hour(s);
    assert s / 86400 == q2 / 24;
  }

  /** The calendar fields of a composed instant are the ones it was composed
      from. */
  lemma InstantOfFields(day: int, hour: int, minute: int, second: int)
    requires 0 <= hour < 24 && 0 <= minute < 60 && 0 <= second < 60
    ensures var s := DateTime(day, hour, minute, second);
      Day(s) == day && Hour(s) == hour && Minute(s) == minute && Second(s) == second
  {
    var s := DateTime(day, hour, minute, second);
    assert s == 60 * (day * 1440 + hour * 60 + minute) + second;
    assert s / 60 == day * 1440 + hour * 60 + minute;
    assert s / 60 == 60 * (day * 24 + hour) + minute;
    assert s / 3600 == day * 24 + hour;
    assert s / 86400 == day;
  }

  // ---------------------------------------------------------------------------
  // The resolver
  // ---------------------------------------------------------------------------

  /** What `determine_period` raises. */
  datatype PeriodError =
    | ZeroDivision                       // `divmod(ts.second, 0)`
    | SecondOutOfRange(second: int)      // `datetime(..., second)` outside 0..59
    | UnsupportedTimeframe(duration: int) // the final `RuntimeError`

  datatype Result<T> = Ok(value: T) | Err(error: PeriodError)

  /** Python's floor division `a // b` (the first half of `divmod`). */
  function FloorDiv(a: int, b: int): int
    requires b != 0
  {
    if b > 0 then a / b else (-a) / (-b)
  }

  /** `FloorDiv` rounds the exact quotient down, whatever the signs. */
  lemma FloorDivBounds(a: int, b: int)
    requires b != 0
    ensures b > 0 ==> b * FloorDiv(a, b) <= a < b * FloorDiv(a, b) + b
    ensures b < 0 ==> b * FloorDiv(a, b) >= a > b * FloorDiv(a, b) + b
  {
    if b < 0 {
      var q := (-a) / (-b);
      assert -a == (-b) * q + (-a) % (-b);
    }
  }

  function DeterminePeriod(ts: Stamp, duration: int): Result<Stamp>
  {
    var s := ts.secs;
    if duration < OneMinuteSeconds then
      if duration == 0 then Err(ZeroDivision)
      else
        var second := FloorDiv(Second(s), duration) * duration;
        if 0 <= second < 60 then Ok(Stamp(DateTime(Day(s), Hour(s), Minute(s), second), true))
        else Err(SecondOutOfRange(second))
    else if duration < OneHourSeconds then
      var minutes := duration / 60;
      Ok(Stamp(DateTime(Day(s), Hour(s), Minute(s) / minutes * minutes, 0), true))
    else if duration < OneDaySeconds then
      var hours := duration / 3600;
      Ok(Stamp(DateTime(Day(s), Hour(s) / hours * hours, 0, 0), true))
    else if duration == OneDaySeconds then
      Ok(Stamp(DateTime(Day(s), 0, 0, 0), true))
    else if duration == OneWeekSeconds then
      Ok(Stamp(DateTime(IsoMonday(Day(s)), 0, 0, 0), false))
    else
      Err(UnsupportedTimeframe(duration))
  }

  /** 2021-11-08T13:47:22Z (a Monday) lies in the five-minute bucket
      13:45:00 and in the week that starts at midnight of that Monday. */
  lemma MondayAfternoon()
    ensures DeterminePeriod(Stamp(1636379242, true), 300) == Ok(Stamp(1636379100, true))
    ensures DeterminePeriod(Stamp(1636379242, true), 604800) == Ok(Stamp(1636329600, false))
  {
    var s := 1636379242;
    DivUnique(s, 86400, 18939, 49642);
    DivUnique(s, 60, 27272987, 22);
    DivUnique(27272987, 60, 454549, 47);
    DivUnique(s, 3600, 454549, 2842);
    DivUnique(454549, 24, 18939, 13);
    DivUnique(18942, 7, 2706, 0);
    assert Day(s) == 18939 && Hour(s) == 13 && Minute(s) == 47 && Weekday(18939) == 0;
  }

  /** The durations for which the resolver never fails. */
  predicate Supported(duration: int)
  {
    0 < duration <= OneDaySeconds || duration == OneWeekSeconds
  }

  /** For a positive duration the resolver fails exactly on the durations past
      one day other than one week, and then with `RuntimeError`; a zero
      duration fails with `ZeroDivisionError`. */
  lemma ResolverErrors(ts: Stamp, duration: int)
    ensures duration > 0 ==> (DeterminePeriod(ts, duration).Ok? <==> Supported(duration))
    ensures duration > 0 && !Supported(duration) ==>
      DeterminePeriod(ts, duration) == Err(UnsupportedTimeframe(duration))
    ensures duration == 0 ==> DeterminePeriod(ts, duration) == Err(ZeroDivision)
  {
    if 0 < duration < 60 {
      FloorDivBounds(Second(ts.secs), duration);
      FieldsOfInstant(ts.secs);
    }
  }

  /** For a negative duration `-m` Python's floor `divmod` rounds the second
      up to `up`, the least multiple of `m` at or above it; the resolver
      succeeds with that second when it is below 60 and otherwise fails with
      `ValueError` naming it. */
  lemma NegativeDurations(ts: Stamp, duration: int)
    requires duration < 0
    ensures var m, a := -duration, Second(ts.secs);
      var up := a + (m - a % m) % m;
      && up % m == 0 && a <= up < a + m
      && (DeterminePeriod(ts, duration).Ok? <==> up < 60)
      && (up < 60 ==> DeterminePeriod(ts, duration).value.secs
                      == DateTime(Day(ts.secs), Hour(ts.secs), Minute(ts.secs), up))
      && (up >= 60 ==> DeterminePeriod(ts, duration) == Err(SecondOutOfRange(up)))
  {
    RoundUp(Second(ts.secs), -duration);
  }

  /** Floor division by `-m` times `-m` is the least multiple of `m` at or
      above `a`. */
  lemma RoundUp(a: int, m: int)
    requires m > 0
    ensures var up := a + (m - a % m) % m;
      && up % m == 0 && a <= up < a + m && FloorDiv(a, -m) * -m == up
  {
    DivUnique(a, m, a / m, a % m);
    if a % m == 0 {
      RoundUpExact(a, m, a / m);
    } else {
      RoundUpInexact(a, m, a / m, a % m);
    }
  }

  lemma RoundUpExact(a: int, m: int, q: int)
    requires m > 0 && a == m * q
    ensures (m - 0) % m == 0 && a % m == 0 && FloorDiv(a, -m) * -m == a
  {
    DivUnique(m, m, 1, 0);
    DivUnique(a, m, q, 0);
    DivUnique(-a, m, -q, 0);
  }

  lemma RoundUpInexact(a: int, m: int, q: int, r: int)
    requires m > 0 && a == m * q + r && 0 < r < m
    ensures (m - r) % m == m - r
    ensures (a + m - r) % m == 0 && FloorDiv(a, -m) * -m == a + m - r
  {
    DivUnique(m - r, m, 0, m - r);
    assert a + m - r == m * (q + 1);
    DivUnique(a + m - r, m, q + 1, 0);
    DivUnique(-a, m, -(q + 1), m - r);
  }

  /** Rule 1 (`0 < d < 60`): same date, hour and minute; the second is floored
      to a multiple of `d`; the bucket starts at or before `ts` and covers it. */
  lemma SubMinuteBucket(ts: Stamp, d: int)
    requires 0 < d < 60
    ensures DeterminePeriod(ts, d).Ok?
    ensures var r := DeterminePeriod(ts, d).value.secs;
      && Day(r) == Day(ts.secs) && Hour(r) == Hour(ts.secs) && Minute(r) == Minute(ts.secs)
      && Second(r) == Second(ts.secs) / d * d
      && r <= ts.secs < r + d
  {
    var s := ts.secs;
    FieldsOfInstant(s);
    var second := Second(s) / d * d;
    FloorBucket(Second(s), d);
    InstantOfFields(Day(s), Hour(s), Minute(s), second);
    assert DeterminePeriod(ts, d) == Ok(Stamp(DateTime(Day(s), Hour(s), Minute(s), second), true));
  }

  /** Rule 2 (`60 <= d < 3600`): same date and hour; the minute is floored to
      a multiple of `d / 60`; the second is zero; the bucket covers `ts`. */
  lemma SubHourBucket(ts: Stamp, d: int)
    requires 60 <= d < 3600
    ensures DeterminePeriod(ts, d).Ok?
    ensures var r := DeterminePeriod(ts, d).value.secs;
      && Day(r) == Day(ts.secs) && Hour(r) == Hour(ts.secs)
      && Minute(r) == Minute(ts.secs) / (d / 60) * (d / 60) && Second(r) == 0
      && r <= ts.secs < r + d
  {
    var s := ts.secs;
    var m := d / 60;
    FieldsOfInstant(s);
    var minute := Minute(s) / m * m;
    FloorBucket(d, 60);
    FloorBucket(Minute(s), m);
    InstantOfFields(Day(s), Hour(s), minute, 0);
    assert DeterminePeriod(ts, d) == Ok(Stamp(DateTime(Day(s), Hour(s), minute, 0), true));
    assert (Minute(s) - minute) * 60 <= (m - 1) * 60;
  }

  /** Rule 3 (`3600 <= d < 86400`): same date; the hour is floored to a
      multiple of `d / 3600`; minute and second are zero; the bucket covers
      `ts`. */
  lemma SubDayBucket(ts: Stamp, d: int)
    requires 3600 <= d < 86400
    ensures DeterminePeriod(ts, d).Ok?
    ensures var r := DeterminePeriod(ts, d).value.secs;
      && Day(r) == Day(ts.secs) && Hour(r) == Hour(ts.secs) / (d / 3600) * (d / 3600)
      && Minute(r) == 0 && Second(r) == 0
      && r <= ts.secs < r + d
  {
    var s := ts.secs;
    var h := d / 3600;
    FieldsOfInstant(s);
    var hour := Hour(s) / h * h;
    FloorBucket(d, 3600);
    FloorBucket(Hour(s), h);
    InstantOfFields(Day(s), hour, 0, 0);
    assert DeterminePeriod(ts, d) == Ok(Stamp(DateTime(Day(s), hour, 0, 0), true));
    assert (Hour(s) - hour) * 3600 <= (h - 1) * 3600;
  }

  /** Rule 4 (`d == 86400`): midnight of the same date. */
  lemma DayBucket(ts: Stamp)
    ensures DeterminePeriod(ts, 86400).Ok?
    ensures var r := DeterminePeriod(ts, 86400).value;
      && r.utc && Day(r.secs) == Day(ts.secs) && r.secs % 86400 == 0
      && r.secs <= ts.secs < r.secs + 86400
  {
    FieldsOfInstant(ts.secs);
    InstantOfFields(Day(ts.secs), 0, 0, 0);
  }

  /** Rule 5 (`d == 604800`): midnight of the Monday of the ISO week that
      contains `ts`, as a tz-naive value. */
  lemma WeekBucket(ts: Stamp)
    ensures DeterminePeriod(ts, 604800).Ok?
    ensures var r := DeterminePeriod(ts, 604800).value;
      && !r.utc && r.secs % 86400 == 0 && Weekday(Day(r.secs)) == 0
      && Day(r.secs) <= Day(ts.secs) < Day(r.secs) + 7
      && r.secs <= ts.secs < r.secs + 604800
  {
    var day := Day(ts.secs);
    var monday := IsoMonday(day);
    FieldsOfInstant(ts.secs);
    InstantOfFields(monday, 0, 0, 0);
    MondayOfWeek(day);
  }

  /** Every bucket that the resolver produces is its own bucket: applying the
      resolver twice with the same duration gives the same result. */
  lemma Idempotent(ts: Stamp, duration: int)
    requires DeterminePeriod(ts, duration).Ok?
    ensures DeterminePeriod(DeterminePeriod(ts, duration).value, duration) == DeterminePeriod(ts, duration)
  {
    if duration < 60 {
      SubMinuteIdempotent(ts, duration);
    } else if duration < 86400 {
      SubDayIdempotent(ts, duration);
    } else {
      DayWeekIdempotent(ts, duration);
    }
  }

  /** `Idempotent` for one day and one week. */
  lemma DayWeekIdempotent(ts: Stamp, duration: int)
    requires duration == 86400 || duration == 604800
    ensures DeterminePeriod(DeterminePeriod(ts, duration).value, duration) == DeterminePeriod(ts, duration)
  {
    var day := if duration == 86400 then Day(ts.secs) else IsoMonday(Day(ts.secs));
    var r := Stamp(DateTime(day, 0, 0, 0), duration == 86400);
    assert DeterminePeriod(ts, duration) == Ok(r);
    InstantOfFields(day, 0, 0, 0);
    assert Day(r.secs) == day;
    if duration == 604800 {
      MondayOfWeek(Day(ts.secs));
      assert IsoMonday(day) == day;
    }
  }

  /** `Idempotent` for the durations from one minute up to one day. */
  lemma SubDayIdempotent(ts: Stamp, duration: int)
    requires 60 <= duration < 86400
    ensures DeterminePeriod(DeterminePeriod(ts, duration).value, duration) == DeterminePeriod(ts, duration)
  {
    var r := DeterminePeriod(ts, duration).value;
    if duration < 3600 {
      SubHourBucket(ts, duration);
      SubHourBucket(r, duration);
      FloorOfFloor(Minute(ts.secs), duration / 60, duration / 60);
      SameFieldsSameBucket(r, ts, duration);
    } else {
      SubDayBucket(ts, duration);
      SubDayBucket(r, duration);
      FloorOfFloor(Hour(ts.secs), duration / 3600, duration / 3600);
      SameFieldsSameBucket(r, ts, duration);
    }
  }

  /** `Idempotent` for the durations below one minute, negative ones
      included. */
  lemma SubMinuteIdempotent(ts: Stamp, duration: int)
    requires duration < 60 && DeterminePeriod(ts, duration).Ok?
    ensures DeterminePeriod(DeterminePeriod(ts, duration).value, duration) == DeterminePeriod(ts, duration)
  {
    var s := ts.secs;
    FieldsOfInstant(s);
    var second := FloorDiv(Second(s), duration) * duration;
    InstantOfFields(Day(s), Hour(s), Minute(s), second);
    FloorDivOfMultiple(FloorDiv(Second(s), duration), duration);
  }

  /** Flooring a multiple of `b` leaves it unchanged. */
  lemma FloorDivOfMultiple(q: int, b: int)
    requires b != 0
    ensures FloorDiv(q * b, b) == q
  {
    if b > 0 {
      DivUnique(q * b, b, q, 0);
    } else {
      assert -(q * b) == (-b) * q + 0;
      DivUnique(-(q * b), -b, q, 0);
    }
  }

  /** `x` rounded down to a multiple of `a` is at most `x` and more than
      `x - a`. */
  lemma FloorBucket(x: int, a: int)
    requires x >= 0 && a > 0
    ensures 0 <= x / a * a <= x < x / a * a + a && x / a >= 0
  {
    assert x == a * (x / a) + x % a;
  }

  /** `r` rounded down to a multiple of `a` stays within `[0, r]`. */
  lemma MultipleBelow(r: int, a: int)
    requires r >= 0 && a > 0
    ensures 0 <= r / a * a <= r
  {
    assert r == a * (r / a) + r % a;
  }

  lemma ScaledQuotient(a: int, c: int, q: int, b: int)
    requires a > 0 && b % a == 0 && c == b / a
    ensures b * q == a * (c * q) && c * q * a == b * q
  {
    assert b == a * c + b % a;
  }

  lemma DivAddMultiple(a: int, m: int, t: int)
    requires a > 0
    ensures (a * m + t) / a == m + t / a
  {
    assert t == a * (t / a) + t % a;
    assert a * m + t == a * (m + t / a) + t % a;
    DivUnique(a * m + t, a, m + t / a, t % a);
  }

  lemma MulAtLeast(b: int, k: int)
    requires b > 0 && k >= 1
    ensures b * k >= b
  {
  }

  /** Euclidean division by a positive divisor has a unique quotient and
      remainder. */
  lemma DivUnique(a: int, b: int, q: int, r: int)
    requires b > 0 && a == b * q + r && 0 <= r < b
    ensures a / b == q && a % b == r
  {
    var q', r' := a / b, a % b;
    assert a == b * q' + r';
    if q' > q {
      MulAtLeast(b, q' - q);
    } else if q' < q {
      MulAtLeast(b, q - q');
    }
  }

  /** Flooring to a multiple of `a` and then to a multiple of `b`, where `a`
      divides `b`, is flooring to a multiple of `b`. */
  lemma FloorOfFloor(x: int, a: int, b: int)
    requires x >= 0 && a > 0 && b > 0 && b % a == 0
    ensures x / a * a / b == x / b
  {
    var c := b / a;
    var q := x / b;
    var r := x % b;
    var t := r / a * a;
    assert x == b * q + r && 0 <= r < b;
    MultipleBelow(r, a);
    ScaledQuotient(a, c, q, b);
    DivAddMultiple(a, c * q, r);
    assert x / a * a == (c * q + r / a) * a;
    assert (c * q + r / a) * a == c * q * a + t;
    assert x / a * a == b * q + t;
    DivUnique(x / a * a, b, q, t);
  }

  // ---------------------------------------------------------------------------
  // Nesting of buckets
  // ---------------------------------------------------------------------------

  /** The resolver rule a duration falls under, in precedence order. */
  datatype Rule = SubMinute | SubHour | SubDay | WholeDay | IsoWeek | Unsupported

  function RuleOf(duration: int): Rule
  {
    if duration < 60 then SubMinute
    else if duration < 3600 then SubHour
    else if duration < 86400 then SubDay
    else if duration == 86400 then WholeDay
    else if duration == 604800 then IsoWeek
    else Unsupported
  }

  function Rank(rule: Rule): nat
  {
    match rule
    case SubMinute => 0
    case SubHour => 1
    case SubDay => 2
    case WholeDay => 3
    case IsoWeek => 4
    case Unsupported => 5
  }

  /** The step, in units of the field the rule floors, by which a duration
      floors that field. */
  function Step(duration: int): int
  {
    match RuleOf(duration)
    case SubMinute => duration
    case SubHour => duration / 60
    case SubDay => duration / 3600
    case _ => 1
  }

  /** `fine` nests in `coarse`: `coarse` floors a coarser field, or the same
      field by a multiple of `fine`'s step. */
  predicate Aligned(fine: int, coarse: int)
  {
    && Supported(fine) && Supported(coarse)
    && Rank(RuleOf(fine)) <= Rank(RuleOf(coarse))
    && (RuleOf(fine) == RuleOf(coarse) ==> Step(coarse) % Step(fine) == 0)
  }

  /** A whole-unit duration divisible by a finer whole-unit duration is
      aligned with it: for the durations the candlestick table uses,
      divisibility is what makes buckets nest. */
  lemma DivisibleIsAligned(fine: int, coarse: int)
    requires Supported(fine) && Supported(coarse) && fine <= coarse
    requires 60 <= fine < 3600 ==> fine % 60 == 0
    requires 3600 <= fine < 86400 ==> fine % 3600 == 0
    requires coarse % fine == 0
    ensures Aligned(fine, coarse)
  {
    if RuleOf(fine) == RuleOf(coarse) {
      var k := coarse / fine;
      assert coarse == fine * k + coarse % fine;
      if RuleOf(fine) == SubHour {
        var a := fine / 60;
        assert fine == 60 * a;
        assert coarse == 60 * (a * k);
        DivUnique(coarse, 60, a * k, 0);
        DivUnique(a * k, a, k, 0);
      } else if RuleOf(fine) == SubDay {
        var a := fine / 3600;
        assert fine == 3600 * a;
        assert coarse == 3600 * (a * k);
        DivUnique(coarse, 3600, a * k, 0);
        DivUnique(a * k, a, k, 0);
      }
    }
  }

  /** Buckets nest: resolving a `fine` bucket start with an aligned `coarse`
      duration gives the `coarse` bucket of the original timestamp. */
  lemma NestedPeriod(ts: Stamp, fine: int, coarse: int)
    requires Aligned(fine, coarse)
    ensures DeterminePeriod(ts, fine).Ok? && DeterminePeriod(ts, coarse).Ok?
    ensures DeterminePeriod(DeterminePeriod(ts, fine).value, coarse) == DeterminePeriod(ts, coarse)
  {
    var s := ts.secs;
    ResolverErrors(ts, fine);
    ResolverErrors(ts, coarse);
    var r := DeterminePeriod(ts, fine).value;
    ResolverErrors(r, coarse);
    FieldsOfInstant(s);
    // The fields of `r` that are at least as coarse as the ones `fine`
    // floors are those of `ts`.
    match RuleOf(fine)
    case SubMinute =>
      SubMinuteBucket(ts, fine);
      if RuleOf(coarse) == SubMinute {
        SubMinuteBucket(r, coarse);
        SubMinuteBucket(ts, coarse);
        FloorOfFloor(Second(s), fine, coarse);
        FieldsOfInstant(r.secs);
        FieldsOfInstant(DeterminePeriod(ts, coarse).value.secs);
        FieldsOfInstant(DeterminePeriod(r, coarse).value.secs);
      } else {
        SameFieldsSameBucket(ts, r, coarse);
      }
    case SubHour =>
      SubHourBucket(ts, fine);
      if RuleOf(coarse) == SubHour {
        SubHourBucket(r, coarse);
        SubHourBucket(ts, coarse);
        FloorOfFloor(Minute(s), fine / 60, coarse / 60);
        FieldsOfInstant(r.secs);
        FieldsOfInstant(DeterminePeriod(ts, coarse).value.secs);
        FieldsOfInstant(DeterminePeriod(r, coarse).value.secs);
      } else {
        SameFieldsSameBucket(ts, r, coarse);
      }
    case SubDay =>
      SubDayBucket(ts, fine);
      if RuleOf(coarse) == SubDay {
        SubDayBucket(r, coarse);
        SubDayBucket(ts, coarse);
        FloorOfFloor(Hour(s), fine / 3600, coarse / 3600);
        FieldsOfInstant(r.secs);
        FieldsOfInstant(DeterminePeriod(ts, coarse).value.secs);
        FieldsOfInstant(DeterminePeriod(r, coarse).value.secs);
      } else {
        SameFieldsSameBucket(ts, r, coarse);
      }
    case WholeDay =>
      DayBucket(ts);
      SameFieldsSameBucket(ts, r, coarse);
    case IsoWeek =>
      WeekBucket(ts);
      Idempotent(ts, coarse);
  }

  /** Two instants whose fields agree down to the field a rule floors fall
      in the same bucket under that rule. */
  lemma SameFieldsSameBucket(a: Stamp, b: Stamp, duration: int)
    requires Supported(duration)
    requires Day(a.secs) == Day(b.secs)
    requires RuleOf(duration) == SubMinute ==>
      Hour(a.secs) == Hour(b.secs) && Minute(a.secs) == Minute(b.secs) && Second(b.secs) / duration == Second(a.secs) / duration
    requires RuleOf(duration) == SubHour ==>
      Hour(a.secs) == Hour(b.secs) && Minute(b.secs) / (duration / 60) == Minute(a.secs) / (duration / 60)
    requires RuleOf(duration) == SubDay ==> Hour(b.secs) / (duration / 3600) == Hour(a.secs) / (duration / 3600)
    ensures DeterminePeriod(a, duration) == DeterminePeriod(b, duration)
  {
  }
}
