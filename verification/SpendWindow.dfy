/** When a budget's running cycle began (SpendWindowStart in internal/litellm/tags.go), over the
    proleptic Gregorian calendar. Instants are nanoseconds from the midnight, UTC, that starts
    January 1970. */
module SpendWindow {
  import opened Strings

  const SECOND: int := 1_000_000_000
  const HOUR: int := 3_600_000_000_000
  const DAY: int := 86_400_000_000_000

  // ----- The calendar

  /** A month, counted from January of year 0. */
  type Month = int

  const EPOCH: Month := 12 * 1970

  predicate Leap(year: int) {
    year % 4 == 0 && (year % 100 != 0 || year % 400 == 0)
  }

  function MonthLength(m: Month): (n: int)
    ensures 28 <= n <= 31
  {
    var k := m % 12;
    if k == 1 then (if Leap(m / 12) then 29 else 28)
    else if k == 3 || k == 5 || k == 8 || k == 10 then 30
    else 31
  }

  /** The day number of the first of a month. */
  function FirstDay(m: Month): (d: int)
    decreases if m > EPOCH then m - EPOCH else EPOCH - m
  {
    if m == EPOCH then 0
    else if m > EPOCH then FirstDay(m - 1) + MonthLength(m - 1)
    else FirstDay(m + 1) - MonthLength(m)
  }

  lemma NextMonth(m: Month)
    ensures FirstDay(m + 1) == FirstDay(m) + MonthLength(m)
  {
  }

  lemma {:induction false} FirstDayMonotone(a: Month, b: Month)
    requires a <= b
    ensures FirstDay(a) + 28 * (b - a) <= FirstDay(b)
    decreases b - a
  {
    if a < b {
      FirstDayMonotone(a, b - 1);
      NextMonth(b - 1);
    }
  }

  lemma MonthOfYear(year: int, k: nat)
    requires k < 12
    ensures (12 * year + k) % 12 == k && (12 * year + k) / 12 == year
    ensures FirstDay(12 * year + k + 1) == FirstDay(12 * year + k) + MonthLength(12 * year + k)
  {
  }

  lemma Quarter(year: int, k: nat)
    requires k <= 9
    ensures
      var m := 12 * year + k;
      FirstDay(m + 3) - FirstDay(m) == MonthLength(m) + MonthLength(m + 1) + MonthLength(m + 2)
  {
    NextMonth(12 * year + k);
    NextMonth(12 * year + k + 1);
    NextMonth(12 * year + k + 2);
  }

  lemma QuarterDays(year: int, k: nat)
    requires k == 0 || k == 3 || k == 6 || k == 9
    ensures FirstDay(12 * year + k + 3) - FirstDay(12 * year + k) ==
              if k == 0 then (if Leap(year) then 91 else 90) else if k == 3 then 91 else 92
  {
    Quarter(year, k);
    MonthOfYear(year, k);
    MonthOfYear(year, k + 1);
    MonthOfYear(year, k + 2);
  }

  /** Twelve months are a year of 365 days, 366 in a leap year. */
  lemma YearLength(year: int)
    ensures FirstDay(12 * (year + 1)) - FirstDay(12 * year) == if Leap(year) then 366 else 365
  {
    QuarterDays(year, 0);
    QuarterDays(year, 3);
    QuarterDays(year, 6);
    QuarterDays(year, 9);
    assert 12 * (year + 1) == 12 * year + 12;
  }

  predicate InMonth(day: int, m: Month) {
    FirstDay(m) <= day < FirstDay(m + 1)
  }

  lemma {:induction false} MonthExists(m: Month, day: int) returns (r: Month)
    ensures InMonth(day, r)
    decreases if day < FirstDay(m) then FirstDay(m) - day
              else if day >= FirstDay(m + 1) then day - FirstDay(m + 1) + 1 else 0
  {
    NextMonth(m - 1);
    NextMonth(m);
    NextMonth(m + 1);
    if day < FirstDay(m) {
      r := MonthExists(m - 1, day);
    } else if day >= FirstDay(m + 1) {
      r := MonthExists(m + 1, day);
    } else {
      r := m;
    }
  }

  /** The month a day falls in; there is exactly one. */
  ghost function MonthOf(day: int): (m: Month)
    ensures InMonth(day, m)
  {
    assert exists m :: InMonth(day, m) by { var m := MonthExists(EPOCH, day); }
    var m :| InMonth(day, m);
    m
  }

  lemma MonthUnique(day: int, a: Month, b: Month)
    requires InMonth(day, a) && InMonth(day, b)
    ensures a == b
  {
    if a < b {
      FirstDayMonotone(a + 1, b);
    } else if b < a {
      FirstDayMonotone(b + 1, a);
    }
  }

  /** AddDate(0, months, 0) on a day: the month moves, the day of the month is kept, and an overflow
      runs into the following month. */
  ghost function AddMonths(day: int, months: int): (d: int) {
    var m := MonthOf(day);
    FirstDay(m + months) + (day - FirstDay(m))
  }

  // ----- SpendWindowStart

  datatype Unit = Seconds | Minutes | Hours | Days | Weeks | Months

  datatype Duration = Duration(n: nat, unit: Unit)

  /** The fields read: the parsed creation time, and of the budget the reset time (None when the
      text is empty) and the duration, each an error when it does not parse. */
  datatype Budget = Budget(resetAt: Option<Result<int, string>>, duration: Option<Duration>)

  datatype TagInfo = TagInfo(created: Result<int, string>, budget: Option<Budget>)

  predicate Truncates(t: int, day: int) {
    day * DAY <= t < day * DAY + DAY
  }

  /** Truncate(24h): the whole days of an instant. */
  ghost function WholeDays(t: int): (day: int)
    ensures Truncates(t, day)
  {
    assert Truncates(t, t / DAY);
    var day :| Truncates(t, day);
    day
  }

  /** The day of the nearest UTC midnight. */
  ghost function Anchor(t: int): (day: int) {
    WholeDays(t + 12 * HOUR)
  }

  /** The nearest UTC midnight moves by whole months and the distance to it is put back. */
  ghost function MonthsOn(t: int, months: int): (r: int) {
    var day := Anchor(t);
    AddMonths(day, months) * DAY + (t - day * DAY)
  }

  ghost function MonthsBack(resetAt: int, n: nat): (r: int) {
    MonthsOn(resetAt, 0 - n)
  }

  /** One step of the grid before the reset. */
  ghost function StepBack(resetAt: int, d: Duration): (r: int) {
    match d.unit
    case Months => MonthsBack(resetAt, d.n)
    case Days => if d.n == 30 then MonthsBack(resetAt, 1) else resetAt - d.n * DAY
    case Weeks => resetAt - 7 * d.n * DAY
    case Hours => resetAt - d.n * HOUR
    case Minutes => resetAt - d.n * (60 * SECOND)
    case Seconds => resetAt - d.n * SECOND
  }

  ghost function SpendWindowStart(e: TagInfo): (r: Option<int>) {
    if e.budget.None? || e.budget.value.resetAt.None? then
      (if e.created.Ok? then Some(e.created.value) else None)
    else
      var b := e.budget.value;
      if b.resetAt.value.Err? || b.duration.None? then None
      else
        var start := StepBack(b.resetAt.value.value, b.duration.value);
        Some(if e.created.Ok? && e.created.value > start then e.created.value else start)
  }

  // ----- Local midnights

  /** Midnight on the first of a month in a zone `offset` ahead of UTC. */
  function LocalFirst(m: Month, offset: int): (t: int) {
    FirstDay(m) * DAY - offset
  }

  /** The nearest UTC midnight to a local first is the first, the day before it far east of UTC, and
      the day after it far west. */
  lemma AnchorOfLocalFirst(m: Month, offset: int)
    requires -DAY < offset < DAY
    ensures Anchor(LocalFirst(m, offset)) ==
              FirstDay(m) + if offset > 12 * HOUR then -1 else if offset <= -12 * HOUR then 1 else 0
  {
  }

  /** A day of the month that exists in `m` is kept by any move of months. */
  lemma MonthStep(m: Month, k: nat, months: int)
    requires k < MonthLength(m)
    ensures AddMonths(FirstDay(m) + k, months) == FirstDay(m + months) + k
  {
    var day := FirstDay(m) + k;
    NextMonth(m);
    assert InMonth(day, m);
    MonthUnique(day, m, MonthOf(day));
  }

  lemma MonthStepFromLast(m: Month, n: nat)
    ensures AddMonths(FirstDay(m) - 1, 0 - n) == FirstDay(m - n) - 1 + (MonthLength(m - 1) - MonthLength(m - 1 - n))
  {
    NextMonth(m - 1);
    NextMonth(m - 1 - n);
    MonthStep(m - 1, MonthLength(m - 1) - 1, 0 - n);
  }

  /** Far east of UTC the step is off by the difference of two month lengths. */
  lemma FarEast(m: Month, n: nat, offset: int)
    requires 12 * HOUR < offset < DAY
    ensures MonthsBack(LocalFirst(m, offset), n) ==
              LocalFirst(m - n, offset) + (MonthLength(m - 1) - MonthLength(m - 1 - n)) * DAY
  {
    AnchorOfLocalFirst(m, offset);
    MonthStepFromLast(m, n);
  }

  lemma AnchorMoves(t: int, months: int, day: int, day': int)
    requires Anchor(t) == day && AddMonths(day, months) == day'
    ensures MonthsOn(t, months) == t + (day' - day) * DAY
  {
  }

  lemma LocalFirstMoves(m: Month, months: int, offset: int, k: int)
    requires Anchor(LocalFirst(m, offset)) == FirstDay(m) + k
    requires AddMonths(FirstDay(m) + k, months) == FirstDay(m + months) + k
    ensures MonthsOn(LocalFirst(m, offset), months) == LocalFirst(m + months, offset)
  {
    AnchorMoves(LocalFirst(m, offset), months, FirstDay(m) + k, FirstDay(m + months) + k);
  }

  lemma NotFarEast(m: Month, months: int, offset: int)
    requires -DAY < offset <= 12 * HOUR
    ensures MonthsOn(LocalFirst(m, offset), months) == LocalFirst(m + months, offset)
  {
    var k := if offset <= -12 * HOUR then 1 else 0;
    AnchorOfLocalFirst(m, offset);
    MonthStep(m, k, months);
    LocalFirstMoves(m, months, offset, k);
  }

  /** Stepping n months back from local midnight on the first lands on local midnight on the first n
      months earlier exactly when the zone is at most 12 hours ahead of UTC, or the months before the
      two dates happen to be equally long. */
  lemma MonthsBackExact(m: Month, n: nat, offset: int)
    requires -DAY < offset < DAY
    ensures MonthsBack(LocalFirst(m, offset), n) == LocalFirst(m - n, offset) <==>
              offset <= 12 * HOUR || MonthLength(m - 1) == MonthLength(m - 1 - n)
  {
    if offset > 12 * HOUR {
      FarEast(m, n, offset);
    } else {
      NotFarEast(m, 0 - n, offset);
    }
  }

  lemma AnchorOf(t: int, day: int)
    requires -12 * HOUR <= t - day * DAY < 12 * HOUR
    ensures Anchor(t) == day
  {
  }

  lemma ForwardFromShorter(m: Month, n: nat)
    requires MonthLength(m - 1) <= MonthLength(m - 1 - n)
    ensures AddMonths(FirstDay(m - n) - 1 + (MonthLength(m - 1) - MonthLength(m - 1 - n)), n) == FirstDay(m) - 1
  {
    var k := MonthLength(m - 1) - 1;
    NextMonth(m - 1);
    NextMonth(m - 1 - n);
    MonthStep(m - 1 - n, k, n);
  }

  /** Far east the step back starts from the last day of a month, and forward again it returns unless
      that day ran over the end of the shorter month. */
  lemma FarEastReturns(m: Month, n: nat, offset: int)
    requires 12 * HOUR < offset < DAY
    ensures MonthsOn(MonthsBack(LocalFirst(m, offset), n), n) == LocalFirst(m, offset) <==>
              MonthLength(m - 1) <= MonthLength(m - 1 - n)
  {
    var over := MonthLength(m - 1) - MonthLength(m - 1 - n);
    var day, t := FirstDay(m - n) - 1 + over, LocalFirst(m - n, offset) + over * DAY;
    FarEast(m, n, offset);
    AnchorOf(t, day);
    if over <= 0 {
      ForwardFromShorter(m, n);
      AnchorMoves(t, n, day, FirstDay(m) - 1);
    } else {
      MonthStep(m - n, over - 1, n);
      AnchorMoves(t, n, day, FirstDay(m) - 1 + over);
    }
  }

  /** Stepping n months forward from where the step back landed returns to the reset exactly when the
      zone is at most 12 hours ahead of UTC, or the month before the reset is no longer than the month
      before the start. */
  lemma ForwardReturns(m: Month, n: nat, offset: int)
    requires -DAY < offset < DAY
    ensures MonthsOn(MonthsBack(LocalFirst(m, offset), n), n) == LocalFirst(m, offset) <==>
              offset <= 12 * HOUR || MonthLength(m - 1) <= MonthLength(m - 1 - n)
  {
    if offset > 12 * HOUR {
      FarEastReturns(m, n, offset);
    } else {
      NotFarEast(m, 0 - n, offset);
      NotFarEast(m - n, n, offset);
    }
  }

  /** "Nmo", or "30d" as one month, at local midnight on the first: the cycle began on the first that
      many months earlier at the same offset, or at creation if that is later. */
  lemma CycleStart(e: TagInfo, m: Month, offset: int, d: Duration)
    requires -DAY < offset <= 12 * HOUR
    requires d.unit == Months || d == Duration(30, Days)
    requires e.budget == Some(Budget(Some(Ok(LocalFirst(m, offset))), Some(d)))
    ensures
      var first := LocalFirst(m - (if d.unit == Months then d.n else 1), offset);
      SpendWindowStart(e) == Some(if e.created.Ok? && first < e.created.value then e.created.value else first)
  {
    MonthsBackExact(m, if d.unit == Months then d.n else 1, offset);
  }

  /** New Zealand in summer is 13 hours ahead: a monthly budget that resets on 1 March of a common year
      is taken to have begun on 29 January instead of 1 February. */
  lemma FarEastMarch(year: int)
    requires !Leap(year)
    ensures MonthsBack(LocalFirst(12 * year + 2, 13 * HOUR), 1) == LocalFirst(12 * year + 1, 13 * HOUR) - 3 * DAY
  {
    FarEast(12 * year + 2, 1, 13 * HOUR);
    MonthOfYear(year, 0);
    MonthOfYear(year, 1);
  }

  /** The length of a duration in nanoseconds, where it does not depend on the calendar. */
  predicate FixedLength(d: Duration, length: int) {
    || (d.unit == Seconds && length == d.n * 1_000_000_000)
    || (d.unit == Minutes && length == d.n * 60_000_000_000)
    || (d.unit == Hours && length == d.n * 3_600_000_000_000)
    || (d.unit == Days && d.n != 30 && length == d.n * 86_400_000_000_000)
    || (d.unit == Weeks && length == d.n * 604_800_000_000_000)
  }

  /** For every other duration the cycle began that long before the reset, or at creation if later. */
  lemma FixedCycleStart(e: TagInfo, resetAt: int, d: Duration, length: int)
    requires e.budget == Some(Budget(Some(Ok(resetAt)), Some(d))) && FixedLength(d, length)
    ensures
      var start := SpendWindowStart(e);
      && start.Some?
      && (e.created.Err? ==> start.value + length == resetAt)
      && (e.created.Ok? ==> start.value >= e.created.value && start.value + length >= resetAt)
      && (e.created.Ok? ==> start.value == e.created.value || start.value + length == resetAt)
  {
  }

  /** Without a running cycle spend counts from creation; a reset or duration that does not parse, or a
      missing creation time then, leaves the start unknown. */
  lemma NoCycleStart(e: TagInfo)
    ensures e.budget.None? || e.budget.value.resetAt.None? ==>
              SpendWindowStart(e) == if e.created.Ok? then Some(e.created.value) else None
    ensures e.budget.Some? && e.budget.value.resetAt.Some? ==>
              (e.budget.value.resetAt.value.Err? || e.budget.value.duration.None? ==> SpendWindowStart(e).None?)
  {
  }
}
