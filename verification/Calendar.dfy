/** Calendar windows of internal/bandwidth/tracker.go in a zone with a fixed
    offset, over the Gregorian calendar from 1970.  Instants are Unix seconds. */
module Calendar {

  const HOUR: int := 3600
  const DAY: int := 86400

  // ---------------------------------------------------------------- months

  predicate Leap(y: int) {
    (y % 4 == 0 && y % 100 != 0) || y % 400 == 0
  }

  function MonthLength(y: int, m: int): (n: nat)
    requires 1 <= m <= 12
    ensures 28 <= n <= 31
  {
    if m == 2 then (if Leap(y) then 29 else 28)
    else if m == 4 || m == 6 || m == 9 || m == 11 then 30
    else 31
  }

  function YearOf(k: nat): int {
    1970 + k / 12
  }

  function MonthNumber(k: nat): (m: int)
    ensures 1 <= m <= 12
  {
    k % 12 + 1
  }

  /** Length of the `k`-th month after January 1970. */
  function MonthDays(k: nat): (n: nat)
    ensures 28 <= n <= 31
  {
    MonthLength(YearOf(k), MonthNumber(k))
  }

  /** Days from 1 January 1970 to the first of the `k`-th month. */
  function MonthStart(k: nat): nat {
    if k == 0 then 0 else MonthStart(k - 1) + MonthDays(k - 1)
  }

  /** The month that contains day `d`, searched from month `k` on. */
  function MonthFrom(d: nat, k: nat): (m: nat)
    requires MonthStart(k) <= d
    ensures k <= m && MonthStart(m) <= d < MonthStart(m + 1)
    decreases d - MonthStart(k)
  {
    if d < MonthStart(k + 1) then k else MonthFrom(d, k + 1)
  }

  function MonthOf(d: nat): (m: nat)
    ensures MonthStart(m) <= d < MonthStart(m + 1)
  {
    MonthFrom(d, 0)
  }

  lemma {:induction false} MonthStartMonotone(j: nat, k: nat)
    requires j <= k
    ensures MonthStart(j) + 28 * (k - j) <= MonthStart(k)
    decreases k - j
  {
    if j < k { MonthStartMonotone(j, k - 1); }
  }

  lemma MonthOfMonotone(d: nat, e: nat)
    requires d <= e
    ensures MonthOf(d) <= MonthOf(e)
  {
    if MonthOf(e) < MonthOf(d) { MonthStartMonotone(MonthOf(e) + 1, MonthOf(d)); }
  }

  /** Leap years in the years before `y`. */
  function LeapsBefore(y: int): int {
    (y - 1) / 4 - (y - 1) / 100 + (y - 1) / 400
  }

  lemma QuarterStep(y: int)
    ensures y / 4 == (y - 1) / 4 + if y % 4 == 0 then 1 else 0
  {
  }

  lemma CenturyStep(y: int)
    ensures y / 100 == (y - 1) / 100 + if y % 100 == 0 then 1 else 0
    ensures y % 100 == 0 ==> y % 4 == 0
  {
  }

  lemma FourCenturyStep(y: int)
    ensures y / 400 == (y - 1) / 400 + if y % 400 == 0 then 1 else 0
    ensures y % 400 == 0 ==> y % 100 == 0
  {
  }

  lemma LeapCount(y: int)
    ensures LeapsBefore(y + 1) == LeapsBefore(y) + if Leap(y) then 1 else 0
  {
    QuarterStep(y);
    CenturyStep(y);
    FourCenturyStep(y);
  }

  lemma YearLength(n: nat)
    ensures MonthStart(12 * (n + 1)) == MonthStart(12 * n) + if Leap(1970 + n) then 366 else 365
  {
    hide MonthStart, Leap;
    HalfYearLength(n);
    MonthInYear(n, 6); MonthInYear(n, 7); MonthInYear(n, 8);
    MonthInYear(n, 9); MonthInYear(n, 10); MonthInYear(n, 11);
  }

  lemma HalfYearLength(n: nat)
    ensures MonthStart(12 * n + 6) == MonthStart(12 * n) + if Leap(1970 + n) then 182 else 181
  {
    hide MonthStart, Leap;
    MonthInYear(n, 0); MonthInYear(n, 1); MonthInYear(n, 2);
    MonthInYear(n, 3); MonthInYear(n, 4); MonthInYear(n, 5);
  }

  lemma MonthInYear(n: nat, m: nat)
    requires m < 12
    ensures MonthStart(12 * n + m + 1) == MonthStart(12 * n + m) + MonthLength(1970 + n, m + 1)
  {
    assert (12 * n + m) / 12 == n && (12 * n + m) % 12 == m;
  }

  lemma Epoch()
    ensures MonthStart(0) == 0
  {
  }

  /** The month recursion is the Gregorian calendar: `n` years after 1970 the year
      begins after 365n days and one more per leap year in between. */
  lemma {:induction false} YearStartIsGregorian(n: nat)
    ensures MonthStart(12 * n) == 365 * n + LeapsBefore(1970 + n) - LeapsBefore(1970)
  {
    hide MonthStart, LeapsBefore, Leap;
    if n == 0 {
      Epoch();
    } else {
      YearStartIsGregorian(n - 1);
      YearLength(n - 1);
      LeapCount(1970 + n - 1);
    }
  }

  /** Days of the years up to `y`, apart from a constant. */
  function YearDays(y: int): int {
    365 * y + y / 4 - y / 100 + y / 400
  }

  /** Days from 1 January 1970 to the first of month `m`, in closed form: years are
      counted from March on, so that the leap day is the last of its year. */
  function CivilDay(y: int, m: int): int {
    YearDays(if m <= 2 then y - 1 else y) + (153 * ((m + 9) % 12) + 2) / 5 - 719468
  }

  lemma NextCivilDay(y: int, m: int)
    requires 1 <= m <= 12
    ensures CivilDay(if m == 12 then y + 1 else y, if m == 12 then 1 else m + 1) == CivilDay(y, m) + MonthLength(y, m)
  {
    if m == 2 { LeapCount(y); }
  }

  lemma NextMonth(k: nat)
    ensures YearOf(k + 1) == if MonthNumber(k) == 12 then YearOf(k) + 1 else YearOf(k)
    ensures MonthNumber(k + 1) == if MonthNumber(k) == 12 then 1 else MonthNumber(k) + 1
  {
  }

  lemma FirstMonth()
    ensures MonthStart(0) == CivilDay(YearOf(0), MonthNumber(0))
  {
  }

  /** Every single month begins where the closed form says. */
  lemma {:induction false} MonthStartIsCivil(k: nat)
    ensures MonthStart(k) == CivilDay(YearOf(k), MonthNumber(k))
  {
    hide CivilDay, MonthLength, YearOf, MonthNumber;
    if k == 0 {
      FirstMonth();
    } else {
      MonthStartIsCivil(k - 1);
      NextCivilDay(YearOf(k - 1), MonthNumber(k - 1));
      NextMonth(k - 1);
    }
  }

  // ---------------------------------------------------------------- windows

  datatype Window = Hourly | Daily | Weekly | Monthly

  /** The clock reads a local time not before 1970, and the zone offset is less
      than a day. */
  predicate Sane(now: int, offset: int) {
    0 <= now && 0 <= now + offset && -DAY < offset < DAY
  }

  function LocalDay(now: int, offset: int): (d: nat)
    requires Sane(now, offset)
  {
    (now + offset) / DAY
  }

  /** Monday is 1 and Sunday 7; day 0 is a Thursday. */
  function Weekday(d: nat): (w: int)
    ensures 1 <= w <= 7
  {
    var w := (d + 4) % 7;
    if w == 0 then 7 else w
  }

  /** Local day on which the window containing day `d` begins. */
  function FirstDay(kind: Window, d: nat): int {
    match kind
    case Hourly => d
    case Daily => d
    case Weekly => d - Weekday(d) + 1
    case Monthly => MonthStart(MonthOf(d))
  }

  function HourOf(t: int): int {
    t / HOUR * HOUR
  }

  /** Begin of the calendar window that contains `now`. */
  function Begin(kind: Window, now: int, offset: int): int
    requires Sane(now, offset)
  {
    if kind.Hourly? then HourOf(now) else FirstDay(kind, LocalDay(now, offset)) * DAY - offset
  }

  /** Integer division of the source truncates toward zero. */
  function TruncHour(t: int): int {
    if t >= 0 then HourOf(t) else -HourOf(-t)
  }

  /** Buckets from this hour on count towards the window. */
  function Floor(kind: Window, now: int, offset: int): int
    requires Sane(now, offset)
  {
    if kind.Hourly? then HourOf(now) else TruncHour(Begin(kind, now, offset))
  }

  lemma HourOfBounds(t: int)
    ensures HourOf(t) <= t < HourOf(t) + HOUR && HourOf(t) % HOUR == 0
  {
    assert t == HOUR * (t / HOUR) + t % HOUR;
  }

  lemma HourOfIff(t: int, from: int)
    requires from % HOUR == 0
    ensures HourOf(t) >= from <==> t >= from
  {
    HourOfBounds(t);
    assert t / HOUR >= from / HOUR <==> t >= from;
  }

  lemma DayBounds(t: int)
    ensures t / DAY * DAY <= t < t / DAY * DAY + DAY
  {
  }

  lemma FloorIsHour(kind: Window, now: int, offset: int)
    requires Sane(now, offset)
    ensures Floor(kind, now, offset) % HOUR == 0
  {
    HourOfBounds(now);
    var b := Begin(kind, now, offset);
    HourOfBounds(b);
    HourOfBounds(-b);
  }

  /** Each window begins inside the previous 31 days: this is where a month's
      length matters. */
  lemma BeginWithinMonth(kind: Window, now: int, offset: int)
    requires Sane(now, offset)
    ensures now - 31 * DAY < Begin(kind, now, offset) <= now
    ensures !kind.Monthly? ==> now - 7 * DAY < Begin(kind, now, offset)
  {
    HourOfBounds(now);
    var d := LocalDay(now, offset);
    assert now + offset == DAY * d + (now + offset) % DAY;
    assert MonthStart(MonthOf(d) + 1) == MonthStart(MonthOf(d)) + MonthDays(MonthOf(d));
    hide MonthStart, MonthOf;
    assert d - 30 <= FirstDay(kind, d) <= d;
    assert !kind.Monthly? ==> d - 6 <= FirstDay(kind, d);
  }

  /** The hour begins on the hour, the day at local midnight and the week at the
      midnight before Monday: 5 January 1970 was one, and it is day 4. */
  lemma BeginIs(now: int, offset: int)
    requires Sane(now, offset)
    ensures Begin(Hourly, now, offset) % HOUR == 0 && now - HOUR < Begin(Hourly, now, offset) <= now
    ensures (Begin(Daily, now, offset) + offset) % DAY == 0 && now - DAY < Begin(Daily, now, offset) <= now
    ensures var monday := Begin(Weekly, now, offset) + offset; monday % DAY == 0 && monday / DAY % 7 == 4
    ensures now - 7 * DAY < Begin(Weekly, now, offset) <= now
  {
    HourOfBounds(now);
    var d := LocalDay(now, offset);
    DayBounds(now + offset);
    var monday := d - Weekday(d) + 1;
    assert monday % 7 == 4 && d - 6 <= monday <= d;
    hide Weekday, HourOf, LocalDay;
    assert monday * DAY / DAY == monday && monday * DAY % DAY == 0 && d * DAY % DAY == 0;
  }

  /** The month begins at the local midnight before its first day. */
  lemma MonthBeginIs(now: int, offset: int) returns (y: int, m: int)
    requires Sane(now, offset)
    ensures y >= 1970 && 1 <= m <= 12 && Begin(Monthly, now, offset) + offset == DAY * CivilDay(y, m)
    ensures DAY * CivilDay(y, m) <= now + offset
            < DAY * CivilDay(if m == 12 then y + 1 else y, if m == 12 then 1 else m + 1)
  {
    var d := LocalDay(now, offset);
    DayBounds(now + offset);
    y, m := MonthOfIs(d);
    hide MonthStart, MonthOf, CivilDay;
  }

  lemma MonthOfIs(d: nat) returns (y: int, m: int)
    ensures y >= 1970 && 1 <= m <= 12 && MonthStart(MonthOf(d)) == CivilDay(y, m)
    ensures CivilDay(y, m) <= d < CivilDay(if m == 12 then y + 1 else y, if m == 12 then 1 else m + 1)
  {
    hide MonthStart, CivilDay, MonthLength;
    var k := MonthOf(d);
    y, m := YearOf(k), MonthNumber(k);
    MonthStartIsCivil(k);
    MonthStartIsCivil(k + 1);
    NextMonth(k);
  }

  /** Windows begin in the order of their instants, and nested windows in the
      order of their lengths. */
  lemma BeginMonotone(kind: Window, t: int, u: int, offset: int)
    requires Sane(t, offset) && Sane(u, offset) && t <= u
    ensures Begin(kind, t, offset) <= Begin(kind, u, offset)
  {
    hide FirstDay;
    DivMonotone(t, u, HOUR);
    DivMonotone(t + offset, u + offset, DAY);
    FirstDayMonotone(kind, LocalDay(t, offset), LocalDay(u, offset));
  }

  lemma DivMonotone(a: int, b: int, n: int)
    requires a <= b && (n == HOUR || n == DAY)
    ensures a / n <= b / n
  {
  }

  lemma FirstDayMonotone(kind: Window, d: nat, e: nat)
    requires d <= e
    ensures FirstDay(kind, d) <= FirstDay(kind, e)
  {
    hide MonthStart, MonthOf;
    match kind
    case Hourly =>
    case Daily =>
    case Weekly => WeekMonotone(d, e);
    case Monthly => MonthOfMonotone(d, e); MonthStartMonotone(MonthOf(d), MonthOf(e));
  }

  lemma WeekMonotone(d: nat, e: nat)
    requires d <= e
    ensures d - Weekday(d) <= e - Weekday(e)
  {
    assert d - Weekday(d) == (d + 3) / 7 * 7 - 4;
    assert e - Weekday(e) == (e + 3) / 7 * 7 - 4;
  }

  lemma {:induction false} FloorsNested(now: int, offset: int)
    requires Sane(now, offset)
    ensures Floor(Daily, now, offset) <= Floor(Hourly, now, offset)
    ensures Floor(Weekly, now, offset) <= Floor(Daily, now, offset)
    ensures Floor(Monthly, now, offset) <= Floor(Daily, now, offset)
  {
    var d := LocalDay(now, offset);
    BeginWithinMonth(Daily, now, offset);
    hide MonthStart, MonthOf;
    TruncHourMonotone(Begin(Daily, now, offset), now);
    TruncHourMonotone(Begin(Weekly, now, offset), Begin(Daily, now, offset));
    TruncHourMonotone(Begin(Monthly, now, offset), Begin(Daily, now, offset));
  }

  /** The comparison value is the last whole hour up to the beginning of the window, and
      before 1970 the first one from it on: the division truncates towards zero. */
  lemma FloorIs(kind: Window, now: int, offset: int)
    requires Sane(now, offset)
    ensures Floor(kind, now, offset) % HOUR == 0
    ensures var b := Begin(kind, now, offset);
            if b >= 0 then b - HOUR < Floor(kind, now, offset) <= b else b <= Floor(kind, now, offset) < b + HOUR
  {
    hide FirstDay;
    FloorIsHour(kind, now, offset);
    HourOfBounds(now);
    HourOfBounds(Begin(kind, now, offset));
    HourOfBounds(-Begin(kind, now, offset));
    if kind.Hourly? { HourOfIff(HourOf(now), HourOf(now)); }
  }

  /** The division truncates upwards only before 1970. */
  lemma FloorBeforeBegin(kind: Window, now: int, offset: int)
    requires Sane(now, offset)
    ensures Floor(kind, now, offset) <= Begin(kind, now, offset) || Floor(kind, now, offset) <= 0
  {
    hide FirstDay;
    HourOfBounds(Begin(kind, now, offset));
    HourOfBounds(-Begin(kind, now, offset));
  }

  lemma HourOfMonotone(t: int, u: int)
    requires t <= u
    ensures HourOf(t) <= HourOf(u)
  {
    DivMonotone(t, u, HOUR);
  }

  lemma TruncHourMonotone(t: int, u: int)
    requires t <= u
    ensures TruncHour(t) <= TruncHour(u)
  {
    HourOfMonotone(t, u);
    HourOfMonotone(-u, -t);
    HourOfMonotone(0, if u >= 0 then u else 0);
    HourOfMonotone(0, if t <= 0 then -t else 0);
    assert HourOf(0) == 0;
    hide HourOf;
  }

  // ---------------------------------------------------------------- the 31-day cutoff

  function Cutoff(now: int): int {
    now - 31 * DAY
  }

  /** How far a local midnight lies past the hour: zero in whole-hour zones. */
  function MidnightPastHour(offset: int): (r: int)
    ensures 0 <= r < HOUR
  {
    -offset % HOUR
  }

  /** In a zone whose midnight is at most one second past the hour no window
      reaches behind the cutoff. */
  lemma FloorAfterCutoff(kind: Window, now: int, offset: int)
    requires Sane(now, offset)
    requires MidnightPastHour(offset) <= 1 || !kind.Monthly?
    ensures Floor(kind, now, offset) >= Cutoff(now)
  {
    BeginWithinMonth(kind, now, offset);
    var b := Begin(kind, now, offset);
    HourOfBounds(b);
    HourOfBounds(-b);
    if kind.Monthly? {
      var d := FirstDay(kind, LocalDay(now, offset));
      MidnightFloor(d, offset);
    }
  }

  /** A local midnight floors to the hour `MidnightPastHour` seconds before. */
  lemma MidnightFloor(d: int, offset: int)
    ensures HourOf(d * DAY - offset) == d * DAY - offset - MidnightPastHour(offset)
  {
    assert (d * DAY - offset) % HOUR == -offset % HOUR by {
      assert d * DAY - offset == HOUR * (24 * d) + -offset;
    }
  }
}
