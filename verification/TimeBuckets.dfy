/** The buckets of a trend: aligned, contiguous, half-open periods, and the rows that fall into them. */
module TimeBuckets {
  import opened Common
  import opened Calendar

  datatype Interval = Day | Week | Month

  datatype Period = Period(start: int, end: int) {
    predicate Contains(time: int) { start <= time < end }
  }

  const MAX_BUCKETS := 400

  /** From a midnight back to the last aligned one. */
  function AlignDown(out: int, interval: Interval): int {
    match interval
    case Day => out
    case Week =>
      // ISO weeks start on Monday; Sunday steps back six days.
      var weekDay := WeekDay(DayOf(out));
      var back := if weekDay == 0 then 6 else weekDay - 1;
      SetUtcDate(out, DateOf(DayOf(out)) - back)
    case Month => MakeTime(MakeDay(UtcMonth(MonthOf(DayOf(out))), 1), 0)
  }

  function TruncateTo(date: int, interval: Interval): int {
    var day := DayOf(date);
    AlignDown(MakeTime(MakeDay(UtcMonth(MonthOf(day)), DateOf(day)), 0), interval)
  }

  function Advance(date: int, interval: Interval): int {
    match interval
    case Day => SetUtcDate(date, DateOf(DayOf(date)) + 1)
    case Week => SetUtcDate(date, DateOf(DayOf(date)) + 7)
    case Month => AddUtcMonths(date, 1)
  }

  /** Midnight; for weeks a Monday's, for months that of the first. */
  predicate Aligned(time: int, interval: Interval) {
    && TimeWithinDay(time) == 0
    && match interval
       case Day => true
       case Week => WeekDay(DayOf(time)) == 1
       case Month => DateOf(DayOf(time)) == 1
  }

  /** An aligned time is a multiple of a day; of weeks, one four days past a multiple of seven; of months, the first. */
  lemma AlignedMeans(time: int)
    ensures Aligned(time, Day) <==> time % 86_400_000 == 0
    ensures Aligned(time, Week) <==> time % 86_400_000 == 0 && (time / 86_400_000) % 7 == 4
    ensures Aligned(time, Month) <==> exists m: YearMonth :: time == 86_400_000 * MonthStart(m)
  {
    var m := MonthOf(DayOf(time));
    if Aligned(time, Month) {
      assert time == 86_400_000 * MonthStart(m);
    }
    if n: YearMonth :| time == 86_400_000 * MonthStart(n) {
      WholeDays(MonthStart(n));
      FirstOfMonth(n);
    }
  }

  // ---------- Alignment ----------

  lemma DatesShift(time: int, days: int)
    ensures SetUtcDate(time, DateOf(DayOf(time)) + days) == time + days * MS_PER_DAY
  {
  }

  lemma WholeDays(day: int)
    ensures DayOf(MakeTime(day, 0)) == day && TimeWithinDay(MakeTime(day, 0)) == 0
  {
  }

  lemma CarryOne(m: YearMonth)
    ensures CarryMonth(m.year, m.month + 1) == NextMonth(m)
  {
  }

  lemma MonthAdvance(time: int)
    requires Aligned(time, Month)
    ensures Advance(time, Month) == MakeTime(MonthStart(NextMonth(MonthOf(DayOf(time)))), 0)
    ensures time == MakeTime(MonthStart(MonthOf(DayOf(time))), 0)
  {
    CarryOne(MonthOf(DayOf(time)));
  }

  lemma MonthAdvanceIsNext(time: int)
    requires Aligned(time, Month)
    ensures Aligned(Advance(time, Month), Month) && time < Advance(time, Month)
    ensures forall u :: time < u < Advance(time, Month) ==> !Aligned(u, Month)
  {
    var m := MonthOf(DayOf(time));
    MonthLength(m);
    MonthAdvance(time);
    WholeDays(MonthStart(NextMonth(m)));
    FirstOfMonth(NextMonth(m));
    forall u | time < u < Advance(time, Month) ensures !Aligned(u, Month) {
      if TimeWithinDay(u) == 0 {
        assert MonthStart(m) < DayOf(u) < MonthStart(NextMonth(m));
        MonthOfUnique(DayOf(u), m);
      }
    }
  }

  lemma DayAdvanceIsNext(time: int)
    requires Aligned(time, Day)
    ensures Aligned(Advance(time, Day), Day) && time < Advance(time, Day)
    ensures forall u :: time < u < Advance(time, Day) ==> !Aligned(u, Day)
  {
    DatesShift(time, 1);
  }

  lemma WeekAdvanceIsNext(time: int)
    requires Aligned(time, Week)
    ensures Aligned(Advance(time, Week), Week) && time < Advance(time, Week)
    ensures forall u :: time < u < Advance(time, Week) ==> !Aligned(u, Week)
  {
    var day := DayOf(time);
    DatesShift(time, 7);
    assert time == MakeTime(day, 0) && Advance(time, Week) == MakeTime(day + 7, 0);
    WholeDays(day + 7);
    forall u | time < u < Advance(time, Week) ensures !Aligned(u, Week) {
      DaysBetween(day, u, 7);
    }
  }

  lemma DaysBetween(day: int, time: int, days: int)
    requires MakeTime(day, 0) <= time < MakeTime(day + days, 0)
    ensures day <= DayOf(time) < day + days
    ensures TimeWithinDay(time) == 0 && time > MakeTime(day, 0) ==> day < DayOf(time)
  {
  }

  /** One step from an aligned time is the next aligned time: nothing aligned lies between. */
  lemma AdvanceIsNext(time: int, interval: Interval)
    requires Aligned(time, interval)
    ensures Aligned(Advance(time, interval), interval) && time < Advance(time, interval)
    ensures forall u :: time < u < Advance(time, interval) ==> !Aligned(u, interval)
  {
    match interval
    case Day =>
      DayAdvanceIsNext(time);
    case Week =>
      WeekAdvanceIsNext(time);
    case Month =>
      MonthAdvanceIsNext(time);
  }

  predicate EarlyYear(time: int) { 0 <= YearOf(DayOf(time)) <= 99 }

  /** Truncation is the last aligned time up to the date, for every year but 0 to 99. */
  lemma TruncateIsFloor(date: int, interval: Interval)
    requires !EarlyYear(date)
    ensures Aligned(TruncateTo(date, interval), interval)
    ensures TruncateTo(date, interval) <= date < Advance(TruncateTo(date, interval), interval)
  {
    var day := DayOf(date);
    var out := MakeTime(day, 0);
    WholeDays(day);
    assert MakeDay(UtcMonth(MonthOf(day)), DateOf(day)) == day;
    match interval
    case Day =>
      DatesShift(out, 1);
    case Week =>
      WeekFloor(day);
    case Month =>
      MonthFloor(day);
  }

  lemma WeekFloor(day: int)
    ensures var monday := AlignDown(MakeTime(day, 0), Week);
      Aligned(monday, Week) && monday <= MakeTime(day, 0) && MakeTime(day + 1, 0) <= Advance(monday, Week)
  {
    var back := if WeekDay(day) == 0 then 6 else WeekDay(day) - 1;
    var monday := day - back;
    WholeDays(day);
    WholeDays(monday);
    DatesShift(MakeTime(day, 0), -back);
    assert AlignDown(MakeTime(day, 0), Week) == MakeTime(monday, 0);
    MondayBefore(day, back);
    DatesShift(MakeTime(monday, 0), 7);
    assert Advance(MakeTime(monday, 0), Week) == MakeTime(monday + 7, 0);
  }

  lemma MondayBefore(day: int, back: int)
    requires back == if WeekDay(day) == 0 then 6 else WeekDay(day) - 1
    ensures WeekDay(day - back) == 1 && 0 <= back <= 6
  {
  }

  lemma MonthFloor(day: int)
    requires !(0 <= YearOf(day) <= 99)
    ensures var first := AlignDown(MakeTime(day, 0), Month);
      Aligned(first, Month) && first <= MakeTime(day, 0) && MakeTime(day + 1, 0) <= Advance(first, Month)
  {
    var m := MonthOf(day);
    WholeDays(day);
    FirstOfMonth(m);
    WholeDays(MonthStart(m));
    assert AlignDown(MakeTime(day, 0), Month) == MakeTime(MonthStart(m), 0);
    MonthAdvance(MakeTime(MonthStart(m), 0));
  }

  lemma FirstStaysLate(day: int)
    requires DayFromYear(1900) <= day
    ensures DayFromYear(1900) <= MonthStart(UtcMonth(MonthOf(day)))
  {
    NotBefore(day, 1900);
    YearsIncrease(1900, YearOf(day));
    MonthWithinYear(MonthOf(day));
  }

  lemma MondayStaysLate(day: int)
    ensures AlignDown(MakeTime(day, 0), Week) >= MakeTime(day - 6, 0)
  {
    WholeDays(day);
    DatesShift(MakeTime(day, 0), -(if WeekDay(day) == 0 then 6 else WeekDay(day) - 1));
  }

  /** Aligning a midnight of the twentieth century or later goes back no further than a week before 1900. */
  lemma AlignDownStaysLate(day: int, interval: Interval)
    requires DayFromYear(1900) <= day
    ensures AlignDown(MakeTime(day, 0), interval) >= MakeTime(DayFromYear(1900) - 6, 0)
  {
    match interval
    case Day =>
    case Week =>
      MondayStaysLate(day);
    case Month =>
      FirstStaysLate(day);
      WholeDays(day);
      assert AlignDown(MakeTime(day, 0), Month) == MakeTime(MonthStart(UtcMonth(MonthOf(day))), 0);
  }

  lemma NotBefore(day: int, year: int)
    requires DayFromYear(year) <= day
    ensures year <= YearOf(day)
  {
    if YearOf(day) < year { YearsIncrease(YearOf(day) + 1, year); }
  }

  /** What `Date.UTC` makes of a day of the years 0 to 99 is in 1900 or later. */
  lemma EarlyDayLandsLate(day: int)
    requires 0 <= YearOf(day) <= 99
    ensures DayFromYear(1900) <= MakeDay(UtcMonth(MonthOf(day)), DateOf(day))
  {
    var m := UtcMonth(MonthOf(day));
    YearsIncrease(1900, m.year);
    MonthWithinYear(m);
  }

  lemma EarlyDayIsEarly(day: int)
    requires 0 <= YearOf(day) <= 99
    ensures day < DayFromYear(100)
  {
    YearsIncrease(YearOf(day) + 1, 100);
  }

  /** In the years 0 to 99 truncation lands after the date, whatever the interval. */
  lemma EarlyYearsTruncateLate(date: int, interval: Interval)
    requires EarlyYear(date)
    ensures TruncateTo(date, interval) > date
  {
    var day := DayOf(date);
    EarlyDayLandsLate(day);
    EarlyDayIsEarly(day);
    AlignDownStaysLate(MakeDay(UtcMonth(MonthOf(day)), DateOf(day)), interval);
    YearsIncrease(100, 1900);
  }

  /** The same date nineteen hundred years later; the last of February may become the first of March. */
  function Later(day: int): int {
    var m := MonthOf(day);
    MonthStart(MonthValue(1900 + m.year, m.month)) + (day - MonthStart(m))
  }

  /** In those years truncation is what it is for the same date nineteen hundred years later. */
  lemma EarlyYearsAreTwentieth(date: int, interval: Interval)
    requires 0 <= YearOf(DayOf(date)) <= 99
    ensures TruncateTo(date, interval) == TruncateTo(86_400_000 * Later(DayOf(date)), interval)
    ensures TruncateTo(date, Day) == 86_400_000 * Later(DayOf(date))
  {
    var day := DayOf(date);
    var later := Later(day);
    EarlyDayLandsLate(day);
    assert MakeDay(UtcMonth(MonthOf(day)), DateOf(day)) == later;
    NotBefore(later, 1900);
    TruncateFromDay(date, later, interval);
    TruncateFromDay(date, later, Day);
    WholeDays(later);
    TruncateFromDay(MakeTime(later, 0), later, interval);
  }

  lemma TruncateFromDay(date: int, day: int, interval: Interval)
    requires day == MakeDay(UtcMonth(MonthOf(DayOf(date))), DateOf(DayOf(date)))
    ensures TruncateTo(date, interval) == AlignDown(MakeTime(day, 0), interval)
  {
  }

  /** Truncation goes back from the date, for every date and interval, exactly outside the years 0 to 99. */
  lemma TruncatesBackIff(date: int, interval: Interval)
    ensures TruncateTo(date, interval) <= date <==> !EarlyYear(date)
  {
    if EarlyYear(date) {
      EarlyYearsTruncateLate(date, interval);
    } else {
      TruncateIsFloor(date, interval);
    }
  }

  // ---------- The periods ----------

  /** From one aligned time to the next. */
  function WholeInterval(interval: Interval): Period -> bool {
    (p: Period) => Aligned(p.start, interval) && p.end == Advance(p.start, interval) && p.start < p.end
  }

  /** Consecutive half-open periods, each of which is `whole`. */
  ghost predicate ChainOf(periods: seq<Period>, whole: Period -> bool) {
    && (forall i :: 0 <= i < |periods| ==> whole(periods[i]))
    && (forall i :: 0 <= i < |periods| - 1 ==> periods[i].end == periods[i + 1].start)
  }

  ghost predicate Chained(periods: seq<Period>, interval: Interval) { ChainOf(periods, WholeInterval(interval)) }

  lemma AlignDownAligned(day: int, interval: Interval)
    ensures Aligned(AlignDown(MakeTime(day, 0), interval), interval)
  {
    WholeDays(day);
    match interval
    case Day =>
    case Week =>
      var back := if WeekDay(day) == 0 then 6 else WeekDay(day) - 1;
      DatesShift(MakeTime(day, 0), -back);
      WholeDays(day - back);
    case Month =>
      var m := UtcMonth(MonthOf(day));
      WholeDays(MonthStart(m));
      FirstOfMonth(m);
  }

  lemma TruncateAligned(date: int, interval: Interval)
    ensures Aligned(TruncateTo(date, interval), interval)
  {
    AlignDownAligned(MakeDay(UtcMonth(MonthOf(DayOf(date))), DateOf(DayOf(date))), interval);
  }

  lemma NextIsWhole(cursor: int, interval: Interval)
    requires Aligned(cursor, interval)
    ensures WholeInterval(interval)(Period(cursor, Advance(cursor, interval)))
    ensures Aligned(Advance(cursor, interval), interval)
  {
    AdvanceIsNext(cursor, interval);
  }

  /** What the loop has built when it stands at `cursor`. */
  ghost predicate Built(periods: seq<Period>, cursor: int, start: int, to: int, whole: Period -> bool) {
    && ChainOf(periods, whole)
    && cursor == (if periods == [] then start else periods[|periods| - 1].end)
    && (periods != [] ==> periods[0].start == start)
    && (forall i :: 0 <= i < |periods| ==> periods[i].start < to)
  }

  lemma BuildsOn(periods: seq<Period>, next: Period, start: int, to: int, whole: Period -> bool)
    requires Built(periods, next.start, start, to, whole) && whole(next) && next.start < to
    ensures Built(periods + [next], next.end, start, to, whole)
  {
  }

  lemma FirstHolds(periods: seq<Period>, from: int, interval: Interval)
    requires Chained(periods, interval) && periods != [] && periods[0].start == TruncateTo(from, interval)
    ensures periods[0].Contains(from) <==> !EarlyYear(from)
  {
    assert WholeInterval(interval)(periods[0]);
    TruncatesBackIff(from, interval);
    if !EarlyYear(from) { TruncateIsFloor(from, interval); }
  }

  /**
   * Aligned, contiguous and strictly increasing periods from the truncated start. They
   * reach `to` unless the cap stopped them, and no period begins at or after `to`.
   */
  method BuildPeriods(from: int, to: int, interval: Interval) returns (periods: seq<Period>)
    ensures Chained(periods, interval) && Contiguous(periods) && |periods| <= 400
    ensures periods == [] <==> TruncateTo(from, interval) >= to
    ensures periods != [] ==> periods[0].start == TruncateTo(from, interval)
    ensures forall i :: 0 <= i < |periods| ==> periods[i].start < to
    ensures 0 < |periods| < 400 ==> periods[|periods| - 1].end >= to
    ensures periods != [] ==> (periods[0].Contains(from) <==> !EarlyYear(from))
  {
    TruncateAligned(from, interval);
    periods := PeriodsFrom(TruncateTo(from, interval), to, interval);
    if periods != [] {
      FirstHolds(periods, from, interval);
    }
  }

  method PeriodsFrom(start: int, to: int, interval: Interval) returns (periods: seq<Period>)
    requires Aligned(start, interval)
    ensures |periods| <= MAX_BUCKETS && (periods == [] ==> start >= to)
    ensures Built(periods, if periods == [] then start
        else periods[|periods| - 1].end, start, to, WholeInterval(interval))
    ensures 0 < |periods| < MAX_BUCKETS ==> periods[|periods| - 1].end >= to
  {
    periods := [];
    var cursor := start;
    var guard := 0;
    while cursor < to && guard < MAX_BUCKETS
      invariant guard == |periods| <= MAX_BUCKETS && Aligned(cursor, interval)
      invariant Built(periods, cursor, start, to, WholeInterval(interval))
      decreases MAX_BUCKETS - guard
    {
      NextIsWhole(cursor, interval);
      var end := Advance(cursor, interval);
      BuildsOn(periods, Period(cursor, end), start, to, WholeInterval(interval));
      periods := periods + [Period(cursor, end)];
      cursor := end;
      guard := guard + 1;
    }
  }

  // ---------- Rows in buckets ----------

  /** A row as a trend sees it: its date, if the field holds one, and whether the metric's two filters match it. */
  datatype Dated = Dated(at: Option<int>, counted: bool, inPopulation: bool)

  function InPeriod(period: Period): Dated -> bool {
    (row: Dated) => row.at.Some? && period.Contains(row.at.value)
  }

  function Population(rows: seq<Dated>, period: Period): nat { |Filter(InPeriod(period), rows)| }

  function Union(periods: seq<Period>): Period
    requires periods != []
  {
    Period(periods[0].start, periods[|periods| - 1].end)
  }

  ghost predicate Contiguous(periods: seq<Period>) {
    && (forall i :: 0 <= i < |periods| ==> periods[i].start < periods[i].end)
    && (forall i :: 0 <= i < |periods| - 1 ==> periods[i].end == periods[i + 1].start)
  }

  lemma {:induction false} PeriodsIncrease(periods: seq<Period>, i: nat, j: nat)
    requires Contiguous(periods) && i < j < |periods|
    ensures periods[i].end <= periods[j].start
  {
    if i < j - 1 { PeriodsIncrease(periods, i, j - 1); }
  }

  /** Every time in the union falls in exactly one bucket. */
  lemma {:induction false} ExactlyOneBucket(periods: seq<Period>, time: int)
    requires periods != [] && Contiguous(periods) && Union(periods).Contains(time)
    ensures exists i :: 0 <= i < |periods| && periods[i].Contains(time)
    ensures forall i, j | 0 <= i < |periods| && 0 <= j < |periods| ::
      periods[i].Contains(time) && periods[j].Contains(time) ==> i == j
  {
    if periods[0].Contains(time) {
    } else {
      var rest := periods[1..];
      assert rest[0] == periods[1];
      ExactlyOneBucket(rest, time);
      var i :| 0 <= i < |rest| && rest[i].Contains(time);
      assert periods[i + 1].Contains(time);
    }
    forall i, j | 0 <= i < j < |periods| && periods[i].Contains(time) ensures !periods[j].Contains(time) {
      PeriodsIncrease(periods, i, j);
    }
  }

  function Populations(rows: seq<Dated>, periods: seq<Period>): seq<int> {
    Map((p: Period) => Population(rows, p), periods)
  }

  lemma {:induction false} SplitPopulation(rows: seq<Dated>, start: int, middle: int, end: int)
    requires start <= middle <= end
    ensures Population(rows, Period(start, middle)) + Population(rows, Period(middle, end))
         == Population(rows, Period(start, end))
  {
    if rows != [] { SplitPopulation(rows[1..], start, middle, end); }
  }

  /** Bucket populations sum to the number of rows dated in the union: none lost, none counted twice. */
  lemma {:induction false} PopulationsSum(rows: seq<Dated>, periods: seq<Period>)
    requires periods != [] && Contiguous(periods)
    ensures Sum(Populations(rows, periods)) == Population(rows, Union(periods))
  {
    var rest := periods[1..];
    assert Populations(rows, periods) == [Population(rows, periods[0])] + Populations(rows, rest);
    if rest == [] {
      assert Sum(Populations(rows, periods)) == Population(rows, periods[0]);
    } else {
      PopulationsSum(rows, rest);
      if |rest| > 1 { PeriodsIncrease(periods, 0, |periods| - 1); }
      SplitPopulation(rows, periods[0].start, periods[0].end, periods[|periods| - 1].end);
    }
  }

  // ---------- The trend ----------

  datatype Aggregate = Count | Percentage

  /** A bucket's value is absent when it is unknown; a percentage is in tenths of a point. */
  datatype Bucket = Bucket(period: Period, value: Option<int>, population: nat)

  const COUNTED: Dated -> bool := (row: Dated) => row.counted
  const IN_POPULATION: Dated -> bool := (row: Dated) => row.inPopulation

  /** `Math.round(n / d * 1000)`: to the nearest tenth of a percent, halves up. */
  function RoundedTenths(n: nat, d: nat): int
    requires d > 0
  {
    (2000 * n + d) / (2 * d)
  }

  /** No tenth is nearer to the fraction; of two as near it is the higher. */
  lemma RoundedMeans(n: nat, d: nat)
    requires d > 0
    ensures var v := RoundedTenths(n, d); 2 * (v * d) <= 2 * (1000 * n) + d < 2 * ((v + 1) * d)
  {
    var x, v := 2000 * n + d, RoundedTenths(n, d);
    Quotient(x, 2 * d);
    assert (2 * d) * v == 2 * (v * d) && (2 * d) * (v + 1) == 2 * ((v + 1) * d);
  }

  lemma Quotient(x: nat, d: nat)
    requires d > 0
    ensures d * (x / d) <= x < d * (x / d + 1)
  {
    assert x == d * (x / d) + x % d;
  }

  function AggregateOf(aggregate: Aggregate, rows: seq<Dated>): Option<int> {
    var numerator := Filter(COUNTED, rows);
    match aggregate
    case Count => Some(|numerator|)
    case Percentage =>
      var denominator := Filter(IN_POPULATION, rows);
      if |denominator| == 0 then None else Some(RoundedTenths(|numerator|, |denominator|))
  }

  function Trend(aggregate: Aggregate, rows: seq<Dated>, periods: seq<Period>): seq<Bucket> {
    Map((p: Period) =>
          var inPeriod := Filter(InPeriod(p), rows);
          Bucket(p, AggregateOf(aggregate, inPeriod), |inPeriod|), periods)
  }

  lemma {:induction false} FilterCommutes(p: Dated -> bool, q: Dated -> bool, rows: seq<Dated>)
    ensures Filter(p, Filter(q, rows)) == Filter(q, Filter(p, rows))
  {
    if rows != [] {
      FilterCommutes(p, q, rows[1..]);
      var r := rows[0];
      FilterConcat(p, if q(r) then [r] else [], Filter(q, rows[1..]));
      FilterConcat(q, if p(r) then [r] else [], Filter(p, rows[1..]));
    }
  }

  const POPULATION_OF: Bucket -> int := (b: Bucket) => b.population

  /** What a bucket adds to a sum; an unknown value adds nothing. */
  const VALUE_OF: Bucket -> int := (b: Bucket) => if b.value.Some? then b.value.value else 0

  lemma CountBucket(rows: seq<Dated>, periods: seq<Period>, i: nat)
    requires i < |periods|
    ensures var bucket, matching := Trend(Count, rows, periods)[i], Filter(COUNTED, rows);
      && bucket.period == periods[i] && bucket.population == Population(rows, periods[i])
      && bucket.value == Some(Population(matching, periods[i]))
  {
    FilterCommutes(COUNTED, InPeriod(periods[i]), rows);
  }

  /** What a count trend plots sums to the matching rows of the union, and its populations to all its rows. */
  lemma CountTrendConserves(rows: seq<Dated>, periods: seq<Period>)
    requires periods != [] && Contiguous(periods)
    ensures var buckets := Trend(Count, rows, periods);
      && (forall i :: 0 <= i < |periods| ==> buckets[i].period == periods[i] && buckets[i].value.Some?)
      && Sum(Map(POPULATION_OF, buckets)) == Population(rows, Union(periods))
      && Sum(Map(VALUE_OF, buckets))
         == Population(Filter(COUNTED, rows), Union(periods))
  {
    var buckets, matching := Trend(Count, rows, periods), Filter(COUNTED, rows);
    forall i | 0 <= i < |periods|
      ensures buckets[i].period == periods[i] && buckets[i].value.Some?
      ensures POPULATION_OF(buckets[i]) == Population(rows, periods[i])
      ensures VALUE_OF(buckets[i]) == Population(matching, periods[i])
    {
      CountBucket(rows, periods, i);
    }
    assert Map(POPULATION_OF, buckets) == Populations(rows, periods);
    PopulationsSum(rows, periods);
    assert Map(VALUE_OF, buckets) == Populations(matching, periods);
    PopulationsSum(matching, periods);
  }

  /** The rows dated in a period: from its start on, and before its end. */
  ghost function DatedIn(rows: seq<Dated>, period: Period): set<int> {
    set k | 0 <= k < |rows| && rows[k].at.Some? && period.start <= rows[k].at.value && rows[k].at.value < period.end
  }

  /** What a bucket of a trend says of the rows dated in its period. */
  lemma BucketMeans(aggregate: Aggregate, rows: seq<Dated>, periods: seq<Period>, i: nat)
    requires i < |periods|
    ensures var bucket := Trend(aggregate, rows, periods)[i];
      var inside := DatedIn(rows, periods[i]);
      var counted, population := set k | k in inside && rows[k].counted, set k | k in inside && rows[k].inPopulation;
      && bucket.period == periods[i] && bucket.population == |inside|
      && match aggregate
         case Count => bucket.value == Some(|counted|)
         case Percentage =>
           if |population| == 0 then bucket.value == None
           else
             && bucket.value.Some?
             && 2 * (bucket.value.value * |population|) <= 2 * (1000 * |counted|) + |population|
             && 2 * (1000 * |counted|) + |population| < 2 * ((bucket.value.value + 1) * |population|)
  {
    var inPeriod := InPeriod(periods[i]);
    var inside := DatedIn(rows, periods[i]);
    FilterCount(inPeriod, rows);
    assert Places(inPeriod, rows) == inside;
    FilterBothCount(COUNTED, inPeriod, rows);
    FilterBothCount(IN_POPULATION, inPeriod, rows);
    assert Places(Both(COUNTED, inPeriod), rows) == set k | k in inside && rows[k].counted;
    assert Places(Both(IN_POPULATION, inPeriod), rows) == set k | k in inside && rows[k].inPopulation;
    var n, d := |Filter(COUNTED, Filter(inPeriod, rows))|, |Filter(IN_POPULATION, Filter(inPeriod, rows))|;
    if d > 0 { RoundedMeans(n, d); }
  }

  /** A percentage is withheld exactly in the buckets without a population; an empty bucket is never zero percent. */
  lemma PercentageUnknownIff(rows: seq<Dated>, periods: seq<Period>, i: nat)
    requires i < |periods|
    ensures Trend(Percentage, rows, periods)[i].value.None?
       <==> forall row :: row in rows && row.inPopulation && row.at.Some? ==> !periods[i].Contains(row.at.value)
  {
    var inPeriod := Filter(InPeriod(periods[i]), rows);
    FilterMembers(InPeriod(periods[i]), rows);
    FilterMembers(IN_POPULATION, inPeriod);
    var denominator := Filter(IN_POPULATION, inPeriod);
    if denominator != [] { assert denominator[0] in denominator; }
  }
}
