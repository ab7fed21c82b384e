/** The days that the comparison query reaches. */
module ComparisonWindow {
  import opened Wrappers
  import opened Sequences
  import opened History
  import opened Comparison
  import StableSort

  const DAY := 1440 * MINUTE

  // The query reads seven days of 24 hours, and the 20 minutes before.
  function Read(observed: seq<Sample>, todayStart: int): seq<Sample> {
    Select(observed, (s: Sample) => todayStart - 7 * DAY - MAX_GAP * 1_000_000_000 <= s.at <= todayStart)
  }

  // No clock change in the eight days before: each has 24 hours.
  ghost predicate PlainDays(calendar: Calendar, todayStart: int) {
    && (forall t :: todayStart - 8 * DAY <= t <= todayStart ==>
          calendar.day(t) == calendar.day(todayStart) + (t - todayStart) / DAY)
    && (forall k :: 1 <= k <= 8 ==> calendar.midnight(calendar.day(todayStart) - k) == todayStart - k * DAY)
  }

  ghost function DaysFrom(first: int, count: nat): (days: set<int>)
    ensures |days| == count
    ensures forall d :: d in days <==> first <= d < first + count
  {
    if count == 0 then {} else DaysFrom(first, count - 1) + {first + count - 1}
  }

  lemma WholeDays(duration: int)
    requires -8 * DAY <= duration < 0
    ensures -8 <= duration / DAY < 0
  {
  }

  lemma DaysRead(observed: seq<Sample>, calendar: Calendar, todayStart: int, d: int)
    requires PlainDays(calendar, todayStart)
    requires d in EarlierDays(Read(observed, todayStart), calendar, calendar.day(todayStart))
    ensures calendar.day(todayStart) - 8 <= d < calendar.day(todayStart)
  {
    EarlierDaysAre(Read(observed, todayStart), calendar, calendar.day(todayStart));
    var s :| s in Read(observed, todayStart) && calendar.day(s.at) == d;
    ReadIs(observed, todayStart, s);
    if s.at < todayStart {
      WholeDays(s.at - todayStart);
    }
  }

  lemma ReadIs(observed: seq<Sample>, todayStart: int, s: Sample)
    ensures s in Read(observed, todayStart) <==>
              s in observed && todayStart - 7 * DAY - MAX_GAP * 1_000_000_000 <= s.at <= todayStart
  {
    SelectMembers(observed, (s: Sample) => todayStart - 7 * DAY - MAX_GAP * 1_000_000_000 <= s.at <= todayStart);
  }

  // A day with a value is one of those compared.
  lemma ValueMeansCompared(samples: seq<Sample>, calendar: Calendar, today: int, d: int, minute: nat)
    requires d < today
    ensures d in DaysWithValue(samples, calendar, EarlierDays(samples, calendar, today), minute)
            <==> DayValue(samples, calendar, d, minute).Some?
  {
    if DayValue(samples, calendar, d, minute).Some? {
      var low, high := DayValueIsSupported(samples, calendar, d, minute);
      EarlierDaysAre(samples, calendar, today);
    }
  }

  lemma FullOrLess(some: set<int>, all: set<int>)
    requires some <= all
    ensures |some| <= |all|
    ensures |some| == |all| <==> all <= some
  {
    SubsetSize(some, all);
    if |some| == |all| {
      SubsetOfEqualSize(some, all);
    }
    if all <= some {
      assert some == all;
    }
  }

  // Of the eighth day only the last 20 minutes are read, so it has no value before 23:20.
  lemma EighthDayIsShort(observed: seq<Sample>, calendar: Calendar, todayStart: int, minute: nat)
    requires PlainDays(calendar, todayStart) && minute < 1400
    ensures DayValue(Read(observed, todayStart), calendar, calendar.day(todayStart) - 8, minute).None?
  {
    var samples, d := Read(observed, todayStart), calendar.day(todayStart) - 8;
    if DayValue(samples, calendar, d, minute).Some? {
      var low, high := DayValueIsSupported(samples, calendar, d, minute);
      ReadIs(observed, todayStart, low);
      assert calendar.midnight(calendar.day(todayStart) - 8) == todayStart - 8 * DAY;
      SecondsMonotone(1260_000_000_000, low.at - (todayStart - 8 * DAY + minute * MINUTE));
      assert false;
    }
  }

  // A day reaches a minute by its own samples.
  ghost predicate DayReaches(samples: seq<Sample>, calendar: Calendar, d: int, minute: nat) {
    Reached(ByTime(OnDay(samples, calendar, d)), calendar.midnight(d) + minute * MINUTE, PICKUP)
  }

  // A pickup sample of the extra 20 minutes is next to the minute of the eighth day and within reach of it.
  ghost predicate EighthReaches(observed: seq<Sample>, calendar: Calendar, todayStart: int, minute: nat) {
    var own := ByTime(OnDay(Read(observed, todayStart), calendar, calendar.day(todayStart) - 8));
    var target := todayStart - 8 * DAY + minute * MINUTE;
    exists s :: s in observed && InExtra(s, todayStart) && Neighbour(own, target, s) && Supports(s, target, PICKUP)
  }

  predicate InExtra(s: Sample, todayStart: int) {
    todayStart - 7 * DAY - MAX_GAP * 1_000_000_000 <= s.at < todayStart - 7 * DAY
  }

  // What is read of the eighth day are the samples of the extra 20 minutes.
  lemma EighthDayIs(observed: seq<Sample>, calendar: Calendar, todayStart: int, s: Sample)
    requires PlainDays(calendar, todayStart)
    requires s in ByTime(OnDay(Read(observed, todayStart), calendar, calendar.day(todayStart) - 8))
    ensures s in observed && InExtra(s, todayStart)
  {
    var samples, d := Read(observed, todayStart), calendar.day(todayStart) - 8;
    ByTimeMembers(OnDay(samples, calendar, d));
    OnDayMembers(samples, calendar, d);
    ReadIs(observed, todayStart, s);
    EighthDayEnds(s.at - todayStart);
  }

  lemma EighthDayEnds(duration: int)
    requires -8 * DAY <= duration <= 0 && duration / DAY == -8
    ensures duration < -7 * DAY
  {
  }

  // Inside those 20 minutes no gap is too wide.
  lemma EighthDayIff(observed: seq<Sample>, calendar: Calendar, todayStart: int, minute: nat)
    requires PlainDays(calendar, todayStart)
    ensures DayReaches(Read(observed, todayStart), calendar, calendar.day(todayStart) - 8, minute)
            <==> EighthReaches(observed, calendar, todayStart, minute)
  {
    var d := calendar.day(todayStart) - 8;
    var own, target := ByTime(OnDay(Read(observed, todayStart), calendar, d)), todayStart - 8 * DAY + minute * MINUTE;
    var before, after := LastBefore(own, target), FirstFrom(own, target);
    assert calendar.midnight(d) + minute * MINUTE == target;
    LastBeforeIs(own, target);
    FirstFromIs(own, target);
    forall s | s in own ensures s in observed && InExtra(s, todayStart) {
      EighthDayIs(observed, calendar, todayStart, s);
    }
    if before.Some? && after.Some? {
      SecondsMonotone(after.value.at - before.value.at, MAX_GAP * 1_000_000_000);
    }
  }

  // The count by the days' values.
  lemma CountByDays(observed: seq<Sample>, calendar: Calendar, todayStart: int, point: ComparisonPoint)
    requires PlainDays(calendar, todayStart)
    requires point in Collected(Columns(Read(observed, todayStart), calendar, calendar.day(todayStart)))
    ensures point.sampleCount <= 8
    ensures point.sampleCount > 7 <==>
              forall d :: calendar.day(todayStart) - 8 <= d < calendar.day(todayStart) ==>
                DayValue(Read(observed, todayStart), calendar, d, point.minute).Some?
    ensures point.minute < 1400 ==> point.sampleCount <= 7
  {
    var samples, today := Read(observed, todayStart), calendar.day(todayStart);
    var present := DaysWithValue(samples, calendar, EarlierDays(samples, calendar, today), point.minute);
    var all := DaysFrom(today - 8, 8);
    CountIsDays(samples, calendar, today, point);
    forall d | d in present ensures d in all {
      DaysRead(observed, calendar, todayStart, d);
    }
    forall d | d in all ensures d in present <==> DayValue(samples, calendar, d, point.minute).Some? {
      ValueMeansCompared(samples, calendar, today, d, point.minute);
    }
    FullOrLess(present, all);
    if point.minute < 1400 {
      EighthDayIsShort(observed, calendar, todayStart, point.minute);
      assert today - 8 in all;
    }
  }

  lemma DayReachesIff(samples: seq<Sample>, calendar: Calendar, d: int, minute: nat)
    ensures DayReaches(samples, calendar, d, minute) <==> DayValue(samples, calendar, d, minute).Some?
  {
    ValueAtIff(ByTime(OnDay(samples, calendar, d)), calendar.midnight(d) + minute * MINUTE, PICKUP);
  }

  // The comparison is to cover seven days. Without clock changes it covers an eighth at a minute exactly if
  // each of the seven days before today reaches the minute by its samples and a sample of the extra 20
  // minutes reaches it on the day before them, which takes a minute from 23:20 on.
  lemma CountBound(observed: seq<Sample>, calendar: Calendar, todayStart: int, point: ComparisonPoint)
    requires PlainDays(calendar, todayStart)
    requires point in Collected(Columns(Read(observed, todayStart), calendar, calendar.day(todayStart)))
    ensures point.sampleCount <= 8
    ensures point.sampleCount > 7 <==>
              && EighthReaches(observed, calendar, todayStart, point.minute)
              && forall d :: calendar.day(todayStart) - 7 <= d < calendar.day(todayStart) ==>
                   DayReaches(Read(observed, todayStart), calendar, d, point.minute)
    ensures point.minute < 1400 ==> point.sampleCount <= 7
  {
    var today := calendar.day(todayStart);
    CountByDays(observed, calendar, todayStart, point);
    EighthDayIff(observed, calendar, todayStart, point.minute);
    forall d | today - 8 <= d < today
      ensures DayReaches(Read(observed, todayStart), calendar, d, point.minute)
              <==> DayValue(Read(observed, todayStart), calendar, d, point.minute).Some?
    {
      DayReachesIff(Read(observed, todayStart), calendar, d, point.minute);
    }
  }

  // One sample a day, a minute before midnight, on each of the n days before day 0.
  function NightlySample(k: int): Sample {
    Sample(1439 * MINUTE - k * DAY, Some(5.0), None, None, None)
  }

  function Nightly(n: nat): seq<Sample> {
    if n == 0 then [] else Nightly(n - 1) + [NightlySample(n)]
  }

  const UTC := Calendar((t: int) => t / DAY, (d: int) => d * DAY)

  lemma NightlyDay(k: int)
    ensures UTC.day(NightlySample(k).at) == -k
  {
    var at := NightlySample(k).at;
    assert at == -k * DAY + 1439 * MINUTE;
  }

  lemma {:induction false} OnDayNightly(n: nat, k: int)
    requires 1 <= k
    ensures OnDay(Nightly(n), UTC, -k) == if k <= n then [NightlySample(k)] else []
  {
    if n > 0 {
      OnDayNightly(n - 1, k);
      NightlyDay(n);
      assert Nightly(n)[..|Nightly(n)| - 1] == Nightly(n - 1);
    }
  }

  lemma {:induction false} ReadNightly(n: nat)
    requires n <= 8
    ensures Read(Nightly(n), 0) == Nightly(n)
  {
    if n > 0 {
      ReadNightly(n - 1);
      SelectConcat(Nightly(n - 1), [NightlySample(n)],
                   (s: Sample) => 0 - 7 * DAY - MAX_GAP * 1_000_000_000 <= s.at <= 0);
      assert Read([NightlySample(n)], 0) == [NightlySample(n)] + Read([], 0);
    }
  }

  lemma SingleByTime(s: Sample)
    ensures ByTime([s]) == [s]
  {
    ByTimeMembers([s]);
    StableSort.SortElements([s], (a: Sample, b: Sample) => a.at <= b.at);
    StableSort.SameElements(ByTime([s]), [s]);
  }

  lemma SingleValue(s: Sample)
    ensures ValueAt([s], s.at, PICKUP) == s.pickup
  {
    assert [s][..0] == [] && LastBefore([], s.at) == None;
    assert LastBefore([s], s.at) == None;
    assert FirstFrom([s], s.at) == Some(s);
  }

  lemma NightlyValue(k: int)
    requires 1 <= k <= 8
    ensures DayValue(Nightly(8), UTC, -k, 1439).Some?
  {
    var s := NightlySample(k);
    OnDayNightly(8, k);
    SingleByTime(s);
    SingleValue(s);
    assert UTC.midnight(-k) + 1439 * MINUTE == s.at;
  }

  // Eight days in a "seven-day" comparison.
  lemma EightDaysCompared() returns (point: ComparisonPoint)
    ensures PlainDays(UTC, 0)
    ensures point in Collected(Columns(Read(Nightly(8), 0), UTC, UTC.day(0)))
    ensures point.minute == 1439 && point.sampleCount == 8
  {
    ReadNightly(8);
    PlainUtc();
    NightlyValue(1);
    point := PointAtMinute(Nightly(8), UTC, 0, -1, 1439);
    CountByDays(Nightly(8), UTC, 0, point);
    forall d | -8 <= d < 0 ensures DayValue(Nightly(8), UTC, d, 1439).Some? {
      NightlyValue(-d);
    }
  }

  lemma PlainUtc()
    ensures PlainDays(UTC, 0) && UTC.day(0) == 0
  {
  }

  // A day with a value at a minute makes a point there.
  lemma PointAtMinute(samples: seq<Sample>, calendar: Calendar, today: int, d: int, minute: nat)
    returns (point: ComparisonPoint)
    requires d < today && minute < DAY_MINUTES && DayValue(samples, calendar, d, minute).Some?
    ensures point in Collected(Columns(samples, calendar, today)) && point.minute == minute
  {
    var columns, days := Columns(samples, calendar, today), EarlierDays(samples, calendar, today);
    CollectedShape(columns);
    EarlierDaysAre(samples, calendar, today);
    PresentCount(samples, calendar, days, minute);
    ValueMeansCompared(samples, calendar, today, d, minute);
    assert |DaysWithValue(samples, calendar, days, minute)| > 0;
    assert columns[minute] != [];
    var i :| 0 <= i < |Collected(columns)| && Collected(columns)[i].minute == minute;
    point := Collected(columns)[i];
  }

  // The query and the loops together.
  method ComparisonPoints(observed: seq<Sample>, calendar: Calendar, todayStart: int)
    returns (points: seq<ComparisonPoint>)
    ensures points == Collected(Columns(Read(observed, todayStart), calendar, calendar.day(todayStart)))
    ensures PlainDays(calendar, todayStart) ==>
              forall p :: p in points ==> p.sampleCount <= if p.minute < 1400 then 7 else 8
    ensures forall p :: p in points ==> IsMean(Read(observed, todayStart), calendar, calendar.day(todayStart), p)
  {
    points := InterpolatedComparisonPoints(Read(observed, todayStart), calendar, calendar.day(todayStart));
    if PlainDays(calendar, todayStart) {
      forall p | p in points ensures p.sampleCount <= if p.minute < 1400 then 7 else 8 {
        CountBound(observed, calendar, todayStart, p);
      }
    }
  }
}
