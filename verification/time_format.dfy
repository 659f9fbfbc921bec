/** The "time since posted" label shown beside each comment ("N m ago",
    "N h ago", "N d ago"). The post controller first clamps a timestamp in
    the future to the current time; the profile controller does not.

    A `TimeSpan` is a count of 100 ns ticks. `TotalMinutes`, `TotalHours`
    and `TotalDays` divide it by the length of the unit and the `(int)` cast
    truncates toward zero, which is what `TruncDiv` does on integers. */
module TimeFormat {
  import opened Text
  import opened Entities

  const TicksPerMinute: int := 600_000_000
  const TicksPerHour: int := 60 * TicksPerMinute
  const TicksPerDay: int := 24 * TicksPerHour

  datatype Unit = Minutes | Hours | Days

  /** A label before rendering: how many whole units, and which unit. */
  datatype Age = Age(amount: int, unit: Unit)

  /** Integer division truncating toward zero, as the C# `(int)` cast of a quotient does. */
  function TruncDiv(a: int, b: int): (q: int)
    requires b > 0
    ensures a >= 0 ==> 0 <= q && q * b <= a < q * b + b
    ensures a < 0 ==> q <= 0 && a <= q * b < a + b
  {
    if a >= 0 then a / b else -((-a) / b)
  }

  /** The branch the formatter takes for `elapsed` ticks: minutes below one
      hour, hours below one day, days otherwise. */
  function AgeOf(elapsed: int): (r: Age)
  {
    if elapsed < TicksPerHour then Age(TruncDiv(elapsed, TicksPerMinute), Minutes)
    else if elapsed < TicksPerDay then Age(TruncDiv(elapsed, TicksPerHour), Hours)
    else Age(TruncDiv(elapsed, TicksPerDay), Days)
  }

  function UnitSuffix(u: Unit): string
  {
    match u
    case Minutes => " m ago"
    case Hours => " h ago"
    case Days => " d ago"
  }

  function Render(a: Age): string
  {
    IntToString(a.amount) + UnitSuffix(a.unit)
  }

  /** `PostController.CalculateTimeSincePosted`: a future `createdAt` is first
      replaced by `now`. */
  function SinceClamped(createdAt: Instant, now: Instant): string
  {
    var from := if createdAt > now then now else createdAt;
    Render(AgeOf(now - from))
  }

  /** `ProfileController.CalculateTimeSincePosted`: the same thresholds, no clamp. */
  function SinceUnclamped(createdAt: Instant, now: Instant): string
  {
    Render(AgeOf(now - createdAt))
  }

  /* ---------- what the label means ---------- */

  /** For a non-negative elapsed time the unit is the largest of minute,
      hour and day that still yields a count below 60, 24 or any bound
      respectively, and the amount is the whole number of those units. */
  lemma AgeOfMeaning(elapsed: int)
    requires elapsed >= 0
    ensures var a := AgeOf(elapsed);
      && (a.unit == Minutes <==> elapsed < TicksPerHour)
      && (a.unit == Hours <==> TicksPerHour <= elapsed < TicksPerDay)
      && (a.unit == Days <==> TicksPerDay <= elapsed)
      && (a.unit == Minutes ==>
            0 <= a.amount < 60 && a.amount * TicksPerMinute <= elapsed < (a.amount + 1) * TicksPerMinute)
      && (a.unit == Hours ==>
            1 <= a.amount < 24 && a.amount * TicksPerHour <= elapsed < (a.amount + 1) * TicksPerHour)
      && (a.unit == Days ==>
            1 <= a.amount && a.amount * TicksPerDay <= elapsed < (a.amount + 1) * TicksPerDay)
  {
    var a := AgeOf(elapsed);
    if elapsed < TicksPerHour {
      MulMonotone(60, a.amount, TicksPerMinute);
    } else if elapsed < TicksPerDay {
      MulMonotone(24, a.amount, TicksPerHour);
      MulMonotone(a.amount + 1, 1, TicksPerHour);
    } else {
      MulMonotone(a.amount + 1, 1, TicksPerDay);
    }
  }

  lemma MulMonotone(x: int, y: int, c: int)
    requires c > 0
    ensures x <= y ==> x * c <= y * c
  {
    if x <= y {
      assert y * c - x * c == (y - x) * c;
    }
  }

  /** A future timestamp renders as "0 m ago" in the post controller. */
  lemma FutureClampsToZero(createdAt: Instant, now: Instant)
    requires createdAt > now
    ensures SinceClamped(createdAt, now) == "0 m ago"
  {
    assert AgeOf(0) == Age(0, Minutes);
    assert IntToString(0) == "0";
  }

  /** The post controller never shows a negative count. */
  lemma ClampedNeverNegative(createdAt: Instant, now: Instant)
    ensures var from := if createdAt > now then now else createdAt;
      AgeOf(now - from).amount >= 0
      && SinceClamped(createdAt, now) == Render(AgeOf(now - from))
  {
    var from := if createdAt > now then now else createdAt;
    AgeOfMeaning(now - from);
  }

  /** Without the clamp a negative elapsed time lands in the minutes branch
      with a count of zero or below, truncated toward zero. */
  lemma UnclampedNegative(createdAt: Instant, now: Instant)
    requires createdAt > now
    ensures var a := AgeOf(now - createdAt);
      a.unit == Minutes && a.amount <= 0
      && a.amount == -((createdAt - now) / TicksPerMinute)
      && SinceUnclamped(createdAt, now) == Render(a)
  {
  }

  /** The two formatters agree whenever the timestamp is not in the future. */
  lemma ClampAgreesOnPast(createdAt: Instant, now: Instant)
    requires createdAt <= now
    ensures SinceClamped(createdAt, now) == SinceUnclamped(createdAt, now)
  {
  }

  /** Exactly sixty minutes is "1 h ago"; exactly one day is "1 d ago". */
  lemma Boundaries(now: Instant)
    ensures SinceClamped(now - TicksPerHour, now) == "1 h ago"
    ensures SinceClamped(now - TicksPerDay, now) == "1 d ago"
    ensures SinceClamped(now - TicksPerHour + 1, now) == "59 m ago"
    ensures SinceClamped(now - TicksPerDay + 1, now) == "23 h ago"
  {
    assert AgeOf(TicksPerHour) == Age(1, Hours);
    assert AgeOf(TicksPerDay) == Age(1, Days);
    assert AgeOf(TicksPerHour - 1) == Age(59, Minutes);
    assert AgeOf(TicksPerDay - 1) == Age(23, Hours);
    assert IntToString(1) == "1";
    assert NatToString(59) == NatToString(5) + [DigitChar(9)];
    assert NatToString(23) == NatToString(2) + [DigitChar(3)];
  }

  /** Thirty minutes ago. */
  lemma MinutesExample(now: Instant)
    ensures SinceClamped(now - 30 * TicksPerMinute, now) == "30 m ago"
  {
    assert AgeOf(30 * TicksPerMinute) == Age(30, Minutes);
    assert NatToString(30) == NatToString(3) + [DigitChar(0)];
  }

  /** Ten hours ago. */
  lemma HoursExample(now: Instant)
    ensures SinceClamped(now - 10 * TicksPerHour, now) == "10 h ago"
  {
    assert AgeOf(10 * TicksPerHour) == Age(10, Hours);
    assert NatToString(10) == NatToString(1) + [DigitChar(0)];
  }

  /** Two days ago. */
  lemma DaysExample(now: Instant)
    ensures SinceClamped(now - 2 * TicksPerDay, now) == "2 d ago"
  {
    assert AgeOf(2 * TicksPerDay) == Age(2, Days);
  }

  /** Five minutes in the future reads as zero minutes. */
  lemma FutureExample(now: Instant)
    ensures SinceClamped(now + 5 * TicksPerMinute, now) == "0 m ago"
  {
    FutureClampsToZero(now + 5 * TicksPerMinute, now);
  }

  /* ---------- the label can be read back ---------- */

  /** Reads a label: a decimal count followed by one of the three suffixes. */
  function ParseLabel(s: string): Option<Age>
  {
    if |s| < 6 then None
    else
      var suffix := s[|s| - 6..];
      var unit := if suffix == " m ago" then Some(Minutes)
                  else if suffix == " h ago" then Some(Hours)
                  else if suffix == " d ago" then Some(Days)
                  else None;
      match (unit, ParseInt(s[..|s| - 6]))
      case (Some(u), Some(n)) => Some(Age(n, u))
      case _ => None
  }

  /** Distinct ages render as distinct labels: the label determines both the
      count and the unit. */
  lemma RenderRoundTrip(a: Age)
    ensures ParseLabel(Render(a)) == Some(a)
  {
    var s := Render(a);
    IntToStringRoundTrip(a.amount);
    assert s[..|s| - 6] == IntToString(a.amount);
    assert s[|s| - 6..] == UnitSuffix(a.unit);
  }
}
