/**
 * The countdown to the next draw: every tick the remaining milliseconds are split into days, hours,
 * minutes and seconds, or, once the target has passed, shown as zeros while the completion callback
 * fires. Each number is shown with at least two digits.
 */
module CountdownTimer {
  import opened Schema
  import Text

  datatype TimeLeft = TimeLeft(days: int, hours: int, minutes: int, seconds: int)

  /** What one tick shows, and whether it calls `onComplete`. */
  datatype Tick = Tick(timeLeft: TimeLeft, completes: bool)

  /** The milliseconds the parts stand for. */
  function TotalMs(t: TimeLeft): int {
    t.days * DayMs + t.hours * HourMs + t.minutes * MinuteMs + t.seconds * SecondMs
  }

  /** The parts are in range: hours below 24, minutes and seconds below 60, none negative. */
  predicate InRange(t: TimeLeft) {
    t.days >= 0 && 0 <= t.hours < 24 && 0 <= t.minutes < 60 && 0 <= t.seconds < 60
  }

  /** The split of a positive difference, done with floor division and remainders as the tick does. */
  function Split(difference: int): TimeLeft
    requires difference > 0
  {
    TimeLeft(difference / DayMs, (difference % DayMs) / HourMs, (difference % HourMs) / MinuteMs,
             (difference % MinuteMs) / SecondMs)
  }

  /** The tick at time `now` for a countdown to `target`. */
  function TickAt(target: Millis, now: Millis): (r: Tick)
    ensures r.completes <==> target - now <= 0
    ensures r.completes ==> r.timeLeft == TimeLeft(0, 0, 0, 0)
    ensures InRange(r.timeLeft)
  {
    var difference := target - now;
    if difference > 0 then Tick(Split(difference), false) else Tick(TimeLeft(0, 0, 0, 0), true)
  }

  /** Hours are taken from the remainder after whole days, which leaves the same remainder after whole hours. */
  lemma HourRemainder(d: int)
    requires d > 0
    ensures (d % DayMs) % HourMs == d % HourMs
  {
  }

  lemma MinuteRemainder(d: int)
    requires d > 0
    ensures (d % HourMs) % MinuteMs == d % MinuteMs
  {
  }

  /**
   * For a target still ahead, the parts put back together give the remaining time rounded down to the
   * whole second: never more than it, and less than a second short of it.
   */
  lemma SplitRecombines(difference: int)
    requires difference > 0
    ensures InRange(Split(difference))
    ensures TotalMs(Split(difference)) <= difference < TotalMs(Split(difference)) + SecondMs
  {
    var d := difference;
    HourRemainder(d);
    MinuteRemainder(d);
    var days, hours, minutes, seconds := d / DayMs, (d % DayMs) / HourMs, (d % HourMs) / MinuteMs, (d % MinuteMs) / SecondMs;
    assert Split(d) == TimeLeft(days, hours, minutes, seconds);
    assert d == days * DayMs + d % DayMs;
    assert d % DayMs == hours * HourMs + d % HourMs;
    assert d % HourMs == minutes * MinuteMs + d % MinuteMs;
    assert d % MinuteMs == seconds * SecondMs + d % SecondMs;
    assert hours < 24 && minutes < 60 && seconds < 60;
  }

  /** A positive multiple of a positive `m` is at least `m`. */
  lemma {:induction false} MulAtLeast(k: int, m: int)
    requires k >= 1 && m > 0
    ensures k * m >= m
    decreases k
  {
    if k > 1 {
      MulAtLeast(k - 1, m);
      assert k * m == (k - 1) * m + m;
    }
  }

  /** Division by a positive `m` undoes `q * m + r` for a remainder `0 <= r < m`. */
  lemma DivUnique(x: int, m: int, q: int, r: int)
    requires m > 0 && 0 <= r < m && x == q * m + r
    ensures x / m == q && x % m == r
  {
    var q2, r2 := x / m, x % m;
    assert q * m - q2 * m == r2 - r;
    assert (q - q2) * m == q * m - q2 * m;
    assert (q2 - q) * m == q2 * m - q * m;
    if q > q2 {
      MulAtLeast(q - q2, m);
    } else if q < q2 {
      MulAtLeast(q2 - q, m);
    }
  }

  /** The ticks before the target have exactly the split that recombines that way, and no other. */
  lemma SplitIsUnique(difference: int, t: TimeLeft)
    requires difference > 0
    requires InRange(t) && TotalMs(t) <= difference < TotalMs(t) + SecondMs
    ensures t == Split(difference)
  {
    var d := difference;
    var e := d - TotalMs(t);
    var rs := t.seconds * SecondMs + e;
    var rm := t.minutes * MinuteMs + rs;
    var rh := t.hours * HourMs + rm;
    DivUnique(d, DayMs, t.days, rh);
    DivUnique(rh, HourMs, t.hours, rm);
    HourRemainder(d);
    DivUnique(d % HourMs, MinuteMs, t.minutes, rs);
    MinuteRemainder(d);
    DivUnique(rm, MinuteMs, t.minutes, rs);
    DivUnique(d % MinuteMs, SecondMs, t.seconds, e);
  }

  /** `value.toString().padStart(2, '0')`. */
  function Display(value: nat): (r: string)
    ensures |r| >= 2 && forall i :: 0 <= i < |r| ==> Text.IsDigitOf(r[i], 10)
    ensures value < 100 ==> |r| == 2
  {
    var digits := Text.ToDigits(value, 10);
    Text.PadStartValue(digits, 10, 2);
    assert 10 <= value < 100 ==> digits == Text.ToDigits(value / 10, 10) + [Text.DigitChar(value % 10)];
    Text.PadStart(digits, 2, '0')
  }

  /** The shown text reads back as the number. */
  lemma DisplayReadsBack(value: nat)
    ensures Text.ValueOf(Display(value), 10) == value
  {
    Text.PadStartValue(Text.ToDigits(value, 10), 10, 2);
    Text.ToDigitsRoundTrip(value, 10);
  }
}
