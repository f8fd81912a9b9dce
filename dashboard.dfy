/** The dashboard's bucketing: daily volume to an activity level, the yearly
    heatmap, muscle names to their six groups, days since training to a
    heat level, and the per-group aggregation of recent records. */
module Dashboard {
  import opened Common

  // ---- the yearly heatmap ----

  /** `calculate_activity_level`: 0 for a rest day, then 1..4 by volume. */
  function ActivityLevel(volume: real): (level: int)
    ensures 0 <= level <= 4
    ensures level == 0 <==> volume == 0.0
  {
    if volume == 0.0 then 0
    else if volume < 1000.0 then 1
    else if volume < 2500.0 then 2
    else if volume < 5000.0 then 3
    else 4
  }

  /** More volume never gives a lower level, and the thresholds are where
      the text says: 1000, 2500 and 5000. A negative volume counts as a
      light day. */
  lemma ActivityLevelMonotone(a: real, b: real)
    requires 0.0 <= a <= b
    ensures ActivityLevel(a) <= ActivityLevel(b)
    ensures ActivityLevel(999.0) == 1 && ActivityLevel(1000.0) == 2 && ActivityLevel(2500.0) == 3
    ensures ActivityLevel(5000.0) == 4 && ActivityLevel(-1.0) == 1
  {}

  /** The daily volume, 0 for a day without data. */
  function VolumeOn(volumeByDate: map<int, real>, day: int): real {
    if day in volumeByDate then volumeByDate[day] else 0.0
  }

  // ---- chrono's calendar ----

  /** chrono's supported years: `i32::MIN >> 13` to `i32::MAX >> 13`. */
  const MinYear: int := -262144
  const MaxYear: int := 262143

  predicate IsLeapYear(year: int) {
    year % 4 == 0 && (year % 100 != 0 || year % 400 == 0)
  }

  function YearLength(year: int): (n: int)
    ensures 365 <= n <= 366
  {
    if IsLeapYear(year) then 366 else 365
  }

  /** The number of leap years in 1..=n of the proleptic Gregorian
      calendar (floor division, so it also counts back for negative n). */
  function LeapsThrough(n: int): int {
    n / 4 - n / 100 + n / 400
  }

  /** The day number of January 1 of `year`, day 0 being 1970-01-01. */
  function YearStart(year: int): int {
    365 * (year - 1970) + LeapsThrough(year - 1) - LeapsThrough(1969)
  }

  /** `NaiveDate::MIN` and `NaiveDate::MAX` as day numbers: January 1 of
      the first supported year and December 31 of the last. */
  const MinDay: int := YearStart(MinYear)
  const MaxDay: int := YearStart(MaxYear) + YearLength(MaxYear) - 1

  /** Day numbers agree with the calendar at a few known dates. */
  lemma YearStartCheckpoints()
    ensures YearStart(1970) == 0 && YearStart(2000) == 10957
    ensures YearStart(2024) == 19723 && YearStart(2025) == 20089
    ensures MaxDay == 95026601 && MinDay == -96465658
  {}

  /** Each year starts the day after the previous one ends. */
  lemma YearStartStep(year: int)
    ensures YearStart(year + 1) == YearStart(year) + YearLength(year)
  {
    LeapCountStep(year);
  }

  /** One more year adds one leap year exactly when it is a leap year. */
  lemma LeapCountStep(year: int)
    ensures LeapsThrough(year) - LeapsThrough(year - 1) == if IsLeapYear(year) then 1 else 0
  {
    DivStep(year, 4);
    DivStep(year, 100);
    DivStep(year, 400);
    if year % 400 == 0 {
      MultipleDivides(year, 400, 100);
      MultipleDivides(year, 400, 4);
    } else if year % 100 == 0 {
      MultipleDivides(year, 100, 4);
    }
  }

  /** A multiple of 400 or 100 is a multiple of its divisors 100 and 4. */
  lemma MultipleDivides(n: int, big: int, small: int)
    requires (big == 400 && (small == 100 || small == 4)) || (big == 100 && small == 4)
    requires n % big == 0
    ensures n % small == 0
  {
    var q := n / big;
    assert n == big * q;
    var m := big / small;
    assert big == small * m;
    assert n == small * (m * q);
  }

  /** Floor division by `k` goes up by one exactly at multiples of `k`. */
  lemma DivStep(n: int, k: int)
    requires k == 4 || k == 100 || k == 400
    ensures n / k - (n - 1) / k == if n % k == 0 then 1 else 0
  {
    var q, r := (n - 1) / k, (n - 1) % k;
    assert n - 1 == k * q + r && 0 <= r < k;
    if r == k - 1 {
      assert n == k * (q + 1) + 0;
    } else {
      assert n == k * q + (r + 1);
    }
  }

  /** A year ends no later than any later year starts. */
  lemma {:induction false} YearStartMonotone(a: int, b: int)
    requires a < b
    ensures YearStart(a) + YearLength(a) <= YearStart(b)
    decreases b - a
  {
    YearStartStep(a);
    if a + 1 < b {
      YearStartMonotone(a + 1, b);
    }
  }

  /** Every supported year lies between `NaiveDate::MIN` and `NaiveDate::MAX`. */
  lemma YearWithinRange(year: int)
    requires MinYear <= year <= MaxYear
    ensures MinDay <= YearStart(year) && YearStart(year) + YearLength(year) - 1 <= MaxDay
  {
    if MinYear < year {
      YearStartMonotone(MinYear, year);
    }
    if year < MaxYear {
      YearStartMonotone(year, MaxYear);
    }
  }

  /** `NaiveDate::from_ymd_opt(year, 1, 1)` and `(year, 12, 31)`: the first
      and last day of the year, or None (where the handler's `unwrap`
      panics) outside chrono's years. */
  function YearRange(year: int): (r: Option<(int, int)>)
    ensures r.None? <==> !(MinYear <= year <= MaxYear)
    ensures r.Some? ==> r.value.0 == YearStart(year) && r.value.1 - r.value.0 + 1 == YearLength(year)
    ensures r.Some? ==> MinDay <= r.value.0 <= r.value.1 <= MaxDay
  {
    if MinYear <= year <= MaxYear then
      YearWithinRange(year);
      Some((YearStart(year), YearStart(year) + YearLength(year) - 1))
    else None
  }

  /** `NaiveDate::succ_opt`: the next day, None on the last supported one. */
  function SuccOpt(day: int): (r: Option<int>)
    ensures r.None? <==> day >= MaxDay
    ensures r.Some? ==> r.value == day + 1
  {
    if day < MaxDay then Some(day + 1) else None
  }

  // ---- the yearly heatmap ----

  /** The step of `get_heatmap`'s loop as written:
      `succ_opt().unwrap_or(current_date)`. */
  function StepAsWritten(day: int): int {
    match SuccOpt(day)
    case None => day
    case Some(next) => next
  }

  /** The day reached after `n` steps as written. */
  function DayAfterSteps(day: int, n: nat): int {
    if n == 0 then day else StepAsWritten(DayAfterSteps(day, n - 1))
  }

  /** Stepping as written never passes the last supported day. */
  lemma {:induction false} StepsStayWithinRange(day: int, n: nat)
    requires day <= MaxDay
    ensures DayAfterSteps(day, n) <= MaxDay
  {
    if n > 0 {
      StepsStayWithinRange(day, n - 1);
    }
  }

  /** For the last supported year the loop as written never ends: its end
      date is `NaiveDate::MAX`, where the step stays put, so after any
      number of iterations the guard `current_date <= end_date` still
      holds. */
  lemma LastYearLoopsForever(n: nat)
    ensures YearRange(MaxYear).Some?
    ensures var (start, end) := YearRange(MaxYear).value;
      end == MaxDay && StepAsWritten(end) == end && DayAfterSteps(start, n) <= end
  {
    var (start, end) := YearRange(MaxYear).value;
    StepsStayWithinRange(start, n);
  }

  /** The loop of `get_heatmap` over the days `start..=end` (January 1 and
      December 31 of the year), corrected to stop after the last supported
      day instead of stalling on it: one level and one volume per day, 0
      where there is no data. */
  method BuildHeatmap(start: int, end: int, volumeByDate: map<int, real>)
    returns (levels: map<int, int>, volumes: map<int, real>)
    requires MinDay <= start && end <= MaxDay
    ensures levels.Keys == volumes.Keys
    ensures forall d :: d in levels <==> start <= d <= end
    ensures forall d :: d in volumes ==>
      volumes[d] == VolumeOn(volumeByDate, d) && levels[d] == ActivityLevel(volumes[d])
  {
    levels, volumes := map[], map[];
    var current := start;
    while current <= end
      invariant start <= current <= end + 1 || (current == start && start > end)
      invariant levels.Keys == volumes.Keys
      invariant forall d :: d in levels <==> start <= d < current
      invariant forall d :: d in volumes ==>
        volumes[d] == VolumeOn(volumeByDate, d) && levels[d] == ActivityLevel(volumes[d])
      decreases end - current
    {
      var volume := if current in volumeByDate then volumeByDate[current] else 0.0;
      var level := ActivityLevel(volume);
      levels := levels[current := level];
      volumes := volumes[current := volume];
      var next := SuccOpt(current);
      if next.None? {
        break;
      }
      current := next.value;
    }
  }

  /** A year of `n` days gets exactly `n` entries. */
  lemma HeatmapCoversRange(start: int, end: int, levels: map<int, int>)
    requires start <= end + 1
    requires forall d :: d in levels <==> start <= d <= end
    ensures |levels.Keys| == end - start + 1
  {
    assert levels.Keys == RangeSet(start, end);
    RangeSetSize(start, end);
  }

  /** The days `lo..=hi`. */
  function RangeSet(lo: int, hi: int): (r: set<int>)
    ensures forall d :: d in r <==> lo <= d <= hi
    decreases hi - lo
  {
    if lo > hi then {} else RangeSet(lo, hi - 1) + {hi}
  }

  lemma {:induction false} RangeSetSize(lo: int, hi: int)
    requires lo <= hi + 1
    ensures |RangeSet(lo, hi)| == hi - lo + 1
    decreases hi - lo
  {
    if lo <= hi {
      RangeSetSize(lo, hi - 1);
      assert hi !in RangeSet(lo, hi - 1);
    }
  }

  // ---- muscle groups ----

  /** The six groups, in the order the response lists them. */
  const Groups: seq<string> := ["胸", "背中", "肩", "腕", "脚", "腹"]

  /** `map_muscle_to_group`. */
  function GroupOf(muscle: string): (g: Option<string>)
    ensures g.Some? ==> g.value in Groups
  {
    match muscle
    case "胸" => Some("胸")
    case "大胸筋" => Some("胸")
    case "背中" => Some("背中")
    case "広背筋" => Some("背中")
    case "僧帽筋" => Some("背中")
    case "脊柱起立筋" => Some("背中")
    case "肩" => Some("肩")
    case "三角筋" => Some("肩")
    case "腕" => Some("腕")
    case "上腕二頭筋" => Some("腕")
    case "上腕三頭筋" => Some("腕")
    case "前腕" => Some("腕")
    case "脚" => Some("脚")
    case "大腿四頭筋" => Some("脚")
    case "ハムストリングス" => Some("脚")
    case "ふくらはぎ" => Some("脚")
    case "臀部" => Some("脚")
    case "腹" => Some("腹")
    case "腹直筋" => Some("腹")
    case "腹斜筋" => Some("腹")
    case _ => None
  }

  /** Every group name maps to itself, so mapping is idempotent; an unknown
      name maps nowhere. */
  lemma GroupOfIdempotent(muscle: string)
    ensures forall g :: g in Groups ==> GroupOf(g) == Some(g)
    ensures GroupOf(muscle).Some? ==> GroupOf(GroupOf(muscle).value) == GroupOf(muscle)
    ensures GroupOf("胸筋").None?
  {}

  // ---- heat ----

  /** `calculate_heat_level`, in tenths (1.0 is 10). */
  function HeatTenths(daysSince: Option<int>): (heat: int)
    ensures 0 <= heat <= 10
  {
    match daysSince
    case None => 0
    case Some(d) =>
      if d <= 1 then 10
      else if d <= 3 then 8
      else if d <= 7 then 6
      else if d <= 14 then 4
      else if d <= 30 then 2
      else 0
  }

  /** The longer since training, the cooler: heat never rises with the
      days, a day-old workout is full heat and after 30 days none is left. */
  lemma HeatNonIncreasing(a: int, b: int)
    requires a <= b
    ensures HeatTenths(Some(a)) >= HeatTenths(Some(b))
    ensures a <= 1 ==> HeatTenths(Some(a)) == 10
    ensures b > 30 ==> HeatTenths(Some(b)) == 0
  {}

  // ---- aggregation ----

  /** A record of the last 30 days: its date and its exercise's muscle. */
  datatype MuscleRecord = MuscleRecord(date: int, muscle: Option<string>)

  function RecordGroup(r: MuscleRecord): Option<string> {
    if r.muscle.Some? then GroupOf(r.muscle.value) else None
  }

  /** The latest date among the records of group `g`. */
  function LastDate(records: seq<MuscleRecord>, g: string): Option<int> {
    if records == [] then None
    else
      var prev := LastDate(records[..|records| - 1], g);
      var r := records[|records| - 1];
      if RecordGroup(r) == Some(g) && (prev.None? || r.date > prev.value) then Some(r.date) else prev
  }

  /** How many records of group `g` are dated on or after `since`. */
  function CountSince(records: seq<MuscleRecord>, g: string, since: int): nat {
    if records == [] then 0
    else
      var r := records[|records| - 1];
      CountSince(records[..|records| - 1], g, since)
        + if RecordGroup(r) == Some(g) && r.date >= since then 1 else 0
  }

  /** `LastDate` is the maximum: present iff some record belongs to the
      group, attained by one of them, and no record of the group is later. */
  lemma {:induction false} LastDateIsMax(records: seq<MuscleRecord>, g: string)
    ensures LastDate(records, g).None? <==> forall k :: 0 <= k < |records| ==> RecordGroup(records[k]) != Some(g)
    ensures LastDate(records, g).Some? ==>
      (exists k :: 0 <= k < |records| && RecordGroup(records[k]) == Some(g) && records[k].date == LastDate(records, g).value)
      && forall k :: 0 <= k < |records| && RecordGroup(records[k]) == Some(g) ==> records[k].date <= LastDate(records, g).value
  {
    if records != [] {
      var init := records[..|records| - 1];
      LastDateIsMax(init, g);
      assert forall k :: 0 <= k < |init| ==> init[k] == records[k];
      var prev := LastDate(init, g);
      if prev.Some? && LastDate(records, g) == prev {
        var k :| 0 <= k < |init| && RecordGroup(init[k]) == Some(g) && init[k].date == prev.value;
        assert records[k] == init[k];
      }
    }
  }

  /** Only records of the group inside the window are counted. */
  lemma {:induction false} CountSinceBounds(records: seq<MuscleRecord>, g: string, since: int)
    ensures CountSince(records, g, since) <= |records|
    ensures (forall k :: 0 <= k < |records| ==> RecordGroup(records[k]) != Some(g) || records[k].date < since)
      ==> CountSince(records, g, since) == 0
  {
    if records != [] {
      CountSinceBounds(records[..|records| - 1], g, since);
      assert forall k :: 0 <= k < |records| - 1 ==> records[..|records| - 1][k] == records[k];
    }
  }

  ghost predicate Aggregated(data: map<string, (Option<int>, int)>, records: seq<MuscleRecord>, since: int) {
    (forall g :: g in data <==> g in Groups)
    && forall g :: g in data ==> data[g] == (LastDate(records, g), CountSince(records, g, since) as int)
  }

  /** One turn of the aggregation loop. */
  method AggregateOne(data: map<string, (Option<int>, int)>, records: seq<MuscleRecord>, i: nat, since: int)
    returns (data': map<string, (Option<int>, int)>)
    requires i < |records| && Aggregated(data, records[..i], since)
    ensures Aggregated(data', records[..i + 1], since)
  {
    var record := records[i];
    assert records[..i + 1][..i] == records[..i];
    data' := data;
    if record.muscle.Some? {
      var group := GroupOf(record.muscle.value);
      if group.Some? {
        var g := group.value;
        var (lastDate, count) := data[g];
        if lastDate.None? || record.date > lastDate.value {
          lastDate := Some(record.date);
        }
        if record.date >= since {
          count := count + 1;
        }
        data' := data[g := (lastDate, count)];
      }
    }
  }

  /** The aggregation loop of `get_muscle_heatmap`: for each group, the
      latest date and the number of records since `since` (seven days
      ago). Records whose muscle maps to no group are ignored. */
  method AggregateGroups(records: seq<MuscleRecord>, since: int) returns (data: map<string, (Option<int>, int)>)
    ensures Aggregated(data, records, since)
  {
    data := map["胸" := (None, 0), "背中" := (None, 0), "肩" := (None, 0),
                "腕" := (None, 0), "脚" := (None, 0), "腹" := (None, 0)];
    var i := 0;
    while i < |records|
      invariant 0 <= i <= |records|
      invariant Aggregated(data, records[..i], since)
    {
      data := AggregateOne(data, records, i, since);
      i := i + 1;
    }
    assert records[..i] == records;
  }

  datatype MuscleHeatmapItem = MuscleHeatmapItem(muscle: string, lastTrained: Option<int>,
                                                 daysSince: Option<int>, heatTenths: int, count7Days: int)

  /** The muscles of the response: the six groups in fixed order, each with
      its latest date, the days since then, its heat and its weekly count. */
  method MuscleHeatmap(records: seq<MuscleRecord>, today: int) returns (items: seq<MuscleHeatmapItem>)
    ensures |items| == |Groups|
    ensures forall i :: 0 <= i < |items| ==>
      var last := LastDate(records, Groups[i]);
      items[i].muscle == Groups[i] && items[i].lastTrained == last
      && items[i].daysSince == (if last.Some? then Some(today - last.value) else None)
      && items[i].heatTenths == HeatTenths(items[i].daysSince)
      && items[i].count7Days == CountSince(records, Groups[i], today - 7)
  {
    var data := AggregateGroups(records, today - 7);
    items := [];
    var i := 0;
    while i < |Groups|
      invariant 0 <= i <= |Groups| && |items| == i
      invariant forall j :: 0 <= j < i ==>
        var last := LastDate(records, Groups[j]);
        items[j].muscle == Groups[j] && items[j].lastTrained == last
        && items[j].daysSince == (if last.Some? then Some(today - last.value) else None)
        && items[j].heatTenths == HeatTenths(items[j].daysSince)
        && items[j].count7Days == CountSince(records, Groups[j], today - 7)
    {
      var (lastDate, count) := data[Groups[i]];
      var daysSince := if lastDate.Some? then Some(today - lastDate.value) else None;
      items := items + [MuscleHeatmapItem(Groups[i], lastDate, daysSince, HeatTenths(daysSince), count)];
      i := i + 1;
    }
  }
}
