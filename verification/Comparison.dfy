/** The comparison curve: for each minute of the day, the average over the earlier local days. */
module Comparison {
  import opened Wrappers
  import opened Sequences
  import opened History
  import StableSort

  datatype ComparisonPoint = ComparisonPoint(minute: nat, average: real, sampleCount: nat) {
    // The average is that of so many values with the given sum.
    ghost predicate Totals(sum: real) {
      average * sampleCount as real == sum
    }
  }

  const DAY_MINUTES := 1440

  // The local calendar: the day of an instant, and the instant a day starts.
  datatype Calendar = Calendar(day: int -> int, midnight: int -> int)

  // ---- Specification

  function OnDay(samples: seq<Sample>, calendar: Calendar, d: int): seq<Sample> {
    if samples == [] then [] else
      var n := |samples| - 1;
      OnDay(samples[..n], calendar, d) + if calendar.day(samples[n].at) == d then [samples[n]] else []
  }

  // A new key of the ordered map goes to its place; a known key changes nothing.
  function InsertDay(days: seq<int>, d: int): seq<int> {
    if days == [] || d < days[0] then [d] + days
    else if d == days[0] then days
    else [days[0]] + InsertDay(days[1..], d)
  }

  // The keys of the ordered map of days.
  function EarlierDays(samples: seq<Sample>, calendar: Calendar, today: int): seq<int> {
    if samples == [] then [] else
      var n := |samples| - 1;
      var days := EarlierDays(samples[..n], calendar, today);
      var d := calendar.day(samples[n].at);
      if d < today then InsertDay(days, d) else days
  }

  // sort_by_key(observed_at)
  function ByTime(samples: seq<Sample>): seq<Sample> {
    StableSort.Sort(samples, (a: Sample, b: Sample) => a.at <= b.at)
  }

  function DayValue(samples: seq<Sample>, calendar: Calendar, d: int, minute: nat): Option<real> {
    ValueAt(ByTime(OnDay(samples, calendar, d)), calendar.midnight(d) + minute * MINUTE, PICKUP)
  }

  function Present(samples: seq<Sample>, calendar: Calendar, days: seq<int>, minute: nat): seq<real> {
    if days == [] then [] else
      var n := |days| - 1;
      var value := DayValue(samples, calendar, days[n], minute);
      Present(samples, calendar, days[..n], minute) + if value.Some? then [value.value] else []
  }

  function Columns(samples: seq<Sample>, calendar: Calendar, today: int): seq<seq<real>> {
    var days := EarlierDays(samples, calendar, today);
    seq(DAY_MINUTES, minute requires 0 <= minute => Present(samples, calendar, days, minute))
  }

  function Sum(values: seq<real>): real {
    if values == [] then 0.0 else Sum(values[..|values| - 1]) + values[|values| - 1]
  }

  function PointOf(minute: nat, values: seq<real>): ComparisonPoint
    requires values != []
  {
    ComparisonPoint(minute, Sum(values) / |values| as real, |values|)
  }

  function Collected(columns: seq<seq<real>>): seq<ComparisonPoint> {
    if columns == [] then [] else
      var n := |columns| - 1;
      Collected(columns[..n]) + if columns[n] != [] then [PointOf(n, columns[n])] else []
  }

  // ---- The three loops

  // The ordered map from day to samples: its keys in order, and its entries.
  method GroupByDay(samples: seq<Sample>, calendar: Calendar, today: int)
    returns (days: seq<int>, byDay: map<int, seq<Sample>>)
    ensures days == EarlierDays(samples, calendar, today)
    ensures forall d :: d in days ==> d in byDay && byDay[d] == OnDay(samples, calendar, d)
  {
    days, byDay := [], map[];
    for i := 0 to |samples|
      invariant days == EarlierDays(samples[..i], calendar, today)
      invariant forall d :: d in days ==> d in byDay
      invariant forall d :: d in byDay ==> d in days && d < today
      invariant forall d :: d in byDay ==> byDay[d] == OnDay(samples[..i], calendar, d)
      invariant forall d :: d < today && d !in byDay ==> OnDay(samples[..i], calendar, d) == []
    {
      assert samples[..i + 1][..i] == samples[..i];
      var d := calendar.day(samples[i].at);
      if d < today {
        InsertDayMembers(days, d);
        ghost var before := days;
        days := InsertDay(days, d);
        assert forall e :: e in before || e == d ==> e in days;
        byDay := byDay[d := (if d in byDay then byDay[d] else []) + [samples[i]]];
      }
    }
    assert samples[..|samples|] == samples;
  }

  lemma {:induction false} InsertDayMembers(days: seq<int>, d: int)
    ensures forall e :: e in InsertDay(days, d) ==> e in days || e == d
    ensures forall e :: e in days ==> e in InsertDay(days, d)
    ensures d in InsertDay(days, d)
  {
    if days != [] && days[0] < d {
      InsertDayMembers(days[1..], d);
      assert days == [days[0]] + days[1..];
    }
  }

  method PushValues(buckets: seq<seq<real>>, values: seq<Option<real>>) returns (more: seq<seq<real>>)
    requires |buckets| == |values|
    ensures |more| == |buckets|
    ensures forall m :: 0 <= m < |more| ==> more[m] == buckets[m] + if values[m].Some? then [values[m].value] else []
  {
    more := buckets;
    for minute := 0 to |values|
      invariant |more| == |buckets|
      invariant forall m :: 0 <= m < minute ==>
                  more[m] == buckets[m] + if values[m].Some? then [values[m].value] else []
      invariant forall m :: minute <= m < |more| ==> more[m] == buckets[m]
    {
      if values[minute].Some? {
        more := more[minute := more[minute] + [values[minute].value]];
      }
    }
  }

  lemma ByTimeSorted(samples: seq<Sample>)
    ensures Sorted(ByTime(samples))
  {
    StableSort.SortSorted(samples, samples, (a: Sample, b: Sample) => a.at <= b.at);
  }

  // One day's values go to the end of the buckets of their minutes.
  method AddDay(ghost samples: seq<Sample>, calendar: Calendar, ghost done: seq<int>, d: int, own: seq<Sample>,
                buckets: seq<seq<real>>)
    returns (more: seq<seq<real>>)
    requires own == OnDay(samples, calendar, d)
    requires Holds(samples, calendar, done, buckets)
    ensures Holds(samples, calendar, done + [d], more)
  {
    ByTimeSorted(own);
    var values := InterpolatedPickupValues(ByTime(own), calendar.midnight(d), DAY_MINUTES);
    more := PushValues(buckets, values);
    assert (done + [d])[..|done|] == done;
  }

  ghost predicate Holds(samples: seq<Sample>, calendar: Calendar, done: seq<int>, buckets: seq<seq<real>>) {
    && |buckets| == DAY_MINUTES
    && forall m :: 0 <= m < DAY_MINUTES ==> buckets[m] == Present(samples, calendar, done, m)
  }

  method FillBuckets(ghost samples: seq<Sample>, calendar: Calendar, ghost today: int,
                     days: seq<int>, byDay: map<int, seq<Sample>>)
    returns (buckets: seq<seq<real>>)
    requires days == EarlierDays(samples, calendar, today)
    requires forall d :: d in days ==> d in byDay && byDay[d] == OnDay(samples, calendar, d)
    ensures buckets == Columns(samples, calendar, today)
  {
    buckets := seq(DAY_MINUTES, _ => []);
    for i := 0 to |days|
      invariant Holds(samples, calendar, days[..i], buckets)
    {
      assert days[..i] + [days[i]] == days[..i + 1];
      buckets := AddDay(samples, calendar, days[..i], days[i], byDay[days[i]], buckets);
    }
    assert days[..|days|] == days;
  }

  method InterpolatedComparisonPoints(samples: seq<Sample>, calendar: Calendar, today: int)
    returns (points: seq<ComparisonPoint>)
    ensures points == Collected(Columns(samples, calendar, today))
    ensures forall p :: p in points ==> IsMean(samples, calendar, today, p)
    ensures forall i, j :: 0 <= i < j < |points| ==> points[i].minute < points[j].minute
  {
    var days, byDay := GroupByDay(samples, calendar, today);
    var buckets := FillBuckets(samples, calendar, today, days, byDay);
    points := [];
    for minute := 0 to DAY_MINUTES
      invariant points == Collected(buckets[..minute])
    {
      assert buckets[..minute + 1][..minute] == buckets[..minute];
      if buckets[minute] != [] {
        points := points + [PointOf(minute, buckets[minute])];
      }
    }
    assert buckets[..DAY_MINUTES] == buckets;
    CollectedShape(buckets);
    forall p | p in points ensures IsMean(samples, calendar, today, p) {
      AverageIsMean(samples, calendar, today, p);
    }
  }

  // ---- Properties of the curve

  // One point for each minute with values, in strictly increasing order.
  lemma {:induction false} CollectedShape(columns: seq<seq<real>>)
    ensures var points := Collected(columns);
            && (forall i :: 0 <= i < |points| ==>
                  points[i].minute < |columns| && columns[points[i].minute] != []
                  && points[i] == PointOf(points[i].minute, columns[points[i].minute]))
            && (forall i, j :: 0 <= i < j < |points| ==> points[i].minute < points[j].minute)
            && (forall m :: 0 <= m < |columns| && columns[m] != [] ==>
                exists i :: 0 <= i < |points| && points[i].minute == m)
  {
    if columns != [] {
      var n := |columns| - 1;
      CollectedShape(columns[..n]);
      var before, points := Collected(columns[..n]), Collected(columns);
      assert forall i :: 0 <= i < |before| ==> points[i] == before[i];
      forall m | 0 <= m < |columns| && columns[m] != [] ensures exists i :: 0 <= i < |points| && points[i].minute == m {
        if m < n {
          assert columns[..n][m] != [];
          var i :| 0 <= i < |before| && before[i].minute == m;
          assert points[i].minute == m;
        } else {
          assert points[|before|].minute == n;
        }
      }
    }
  }

  function TotalCount(points: seq<ComparisonPoint>): nat {
    if points == [] then 0 else TotalCount(points[..|points| - 1]) + points[|points| - 1].sampleCount
  }

  function TotalValues(columns: seq<seq<real>>): nat {
    if columns == [] then 0 else TotalValues(columns[..|columns| - 1]) + |columns[|columns| - 1]|
  }

  // The counts add up to the number of values of all days at all minutes.
  lemma {:induction false} CountsAddUp(columns: seq<seq<real>>)
    ensures TotalCount(Collected(columns)) == TotalValues(columns)
  {
    if columns != [] {
      var n := |columns| - 1;
      CountsAddUp(columns[..n]);
      var before := Collected(columns[..n]);
      if columns[n] != [] {
        assert (before + [PointOf(n, columns[n])])[..|before|] == before;
      } else {
        assert Collected(columns) == before;
      }
    }
  }

  ghost predicate Ascending(days: seq<int>) {
    forall i, j :: 0 <= i < j < |days| ==> days[i] < days[j]
  }

  lemma {:induction false} InsertDayAscending(days: seq<int>, d: int)
    requires Ascending(days)
    ensures Ascending(InsertDay(days, d))
  {
    if days != [] && days[0] < d {
      InsertDayAscending(days[1..], d);
      InsertDayMembers(days[1..], d);
      var rest := InsertDay(days[1..], d);
      forall j | 0 <= j < |rest| ensures days[0] < rest[j] {
        assert rest[j] in rest;
      }
    }
  }

  // The days compared are the distinct local days before today that have a sample, in order.
  lemma {:induction false} EarlierDaysAre(samples: seq<Sample>, calendar: Calendar, today: int)
    ensures var days := EarlierDays(samples, calendar, today);
            && Ascending(days)
            && (forall d :: d in days ==> d < today && exists s :: s in samples && calendar.day(s.at) == d)
            && (forall s :: s in samples && calendar.day(s.at) < today ==> calendar.day(s.at) in days)
  {
    if samples != [] {
      var n := |samples| - 1;
      EarlierDaysAre(samples[..n], calendar, today);
      var days, d := EarlierDays(samples[..n], calendar, today), calendar.day(samples[n].at);
      InsertDayAscending(days, d);
      InsertDayMembers(days, d);
      assert forall s :: s in samples ==> s in samples[..n] || s == samples[n];
      forall s | s in samples && calendar.day(s.at) < today
        ensures calendar.day(s.at) in EarlierDays(samples, calendar, today)
      {
        if s in samples[..n] {
          assert calendar.day(s.at) in days;
        }
      }
      forall e | e in EarlierDays(samples, calendar, today)
        ensures e < today && exists s :: s in samples && calendar.day(s.at) == e
      {
        if e in days {
          var s :| s in samples[..n] && calendar.day(s.at) == e;
          assert s in samples;
        } else {
          assert samples[n] in samples && calendar.day(samples[n].at) == e;
        }
      }
    }
  }

  lemma {:induction false} AscendingUnique(a: seq<int>, b: seq<int>)
    requires Ascending(a) && Ascending(b)
    requires forall d :: d in a ==> d in b
    requires forall d :: d in b ==> d in a
    ensures a == b
  {
    assert a != [] ==> a[0] in a && a[0] in b;
    assert b != [] ==> b[0] in b && b[0] in a;
    if a != [] {
      assert a[0] == b[0];
      assert a == [a[0]] + a[1..] && b == [b[0]] + b[1..];
      SameTails(a, b);
      AscendingUnique(a[1..], b[1..]);
    }
  }

  lemma SameTails(a: seq<int>, b: seq<int>)
    requires a != [] && b != [] && a[0] == b[0] && Ascending(a) && Ascending(b)
    requires forall d :: d in a ==> d in b
    requires forall d :: d in b ==> d in a
    ensures forall d :: d in a[1..] ==> d in b[1..]
    ensures forall d :: d in b[1..] ==> d in a[1..]
  {
    forall d | d in a[1..] ensures d in b[1..] {
      assert d in a && d != a[0];
    }
    forall d | d in b[1..] ensures d in a[1..] {
      assert d in b && d != b[0];
    }
  }

  ghost function DaysWithValue(samples: seq<Sample>, calendar: Calendar, days: seq<int>, minute: nat): set<int> {
    set d | d in days && DayValue(samples, calendar, d, minute).Some?
  }

  lemma DaysWithLast(samples: seq<Sample>, calendar: Calendar, days: seq<int>, minute: nat)
    requires days != [] && Ascending(days)
    ensures var n := |days| - 1;
            var before, all := DaysWithValue(samples, calendar, days[..n], minute),
                DaysWithValue(samples, calendar, days, minute);
            && (DayValue(samples, calendar, days[n], minute).Some? ==> days[n] in all && all - {days[n]} == before)
            && (DayValue(samples, calendar, days[n], minute).None? ==> all == before)
  {
    var n := |days| - 1;
    assert forall d :: d in days ==> d in days[..n] || d == days[n];
    assert days[n] !in days[..n];
  }

  lemma {:induction false} PresentCount(samples: seq<Sample>, calendar: Calendar, days: seq<int>, minute: nat)
    requires Ascending(days)
    ensures |Present(samples, calendar, days, minute)| == |DaysWithValue(samples, calendar, days, minute)|
  {
    if days != [] {
      var n := |days| - 1;
      PresentCount(samples, calendar, days[..n], minute);
      DaysWithLast(samples, calendar, days, minute);
    }
  }

  // A point's sample_count is the number of distinct earlier days with a value at its minute.
  lemma CountIsDays(samples: seq<Sample>, calendar: Calendar, today: int, point: ComparisonPoint)
    requires point in Collected(Columns(samples, calendar, today))
    ensures point.minute < DAY_MINUTES
    ensures point.sampleCount
            == |DaysWithValue(samples, calendar, EarlierDays(samples, calendar, today), point.minute)| > 0
  {
    CollectedShape(Columns(samples, calendar, today));
    EarlierDaysAre(samples, calendar, today);
    PresentCount(samples, calendar, EarlierDays(samples, calendar, today), point.minute);
  }

  // The sum of the values of a set of days at a minute, in whatever order.
  ghost function DaysSum(samples: seq<Sample>, calendar: Calendar, days: set<int>, minute: nat): real
    requires forall d :: d in days ==> DayValue(samples, calendar, d, minute).Some?
    decreases |days|
  {
    if exists d :: d in days then
      var d :| d in days;
      DaysSum(samples, calendar, days - {d}, minute) + DayValue(samples, calendar, d, minute).value
    else 0.0
  }

  lemma {:induction false} DaysSumWithout(samples: seq<Sample>, calendar: Calendar, days: set<int>, minute: nat, d: int)
    requires forall e :: e in days ==> DayValue(samples, calendar, e, minute).Some?
    requires d in days
    ensures DaysSum(samples, calendar, days, minute)
            == DaysSum(samples, calendar, days - {d}, minute) + DayValue(samples, calendar, d, minute).value
    decreases |days|
  {
    var e :| e in days && DaysSum(samples, calendar, days, minute)
              == DaysSum(samples, calendar, days - {e}, minute) + DayValue(samples, calendar, e, minute).value;
    if e != d {
      DaysSumWithout(samples, calendar, days - {e}, minute, d);
      DaysSumWithout(samples, calendar, days - {d}, minute, e);
      assert days - {e} - {d} == days - {d} - {e};
    }
  }

  lemma {:induction false} PresentSum(samples: seq<Sample>, calendar: Calendar, days: seq<int>, minute: nat)
    requires Ascending(days)
    ensures Sum(Present(samples, calendar, days, minute))
            == DaysSum(samples, calendar, DaysWithValue(samples, calendar, days, minute), minute)
  {
    if days != [] {
      var n := |days| - 1;
      PresentSum(samples, calendar, days[..n], minute);
      DaysWithLast(samples, calendar, days, minute);
      var all, value := DaysWithValue(samples, calendar, days, minute), DayValue(samples, calendar, days[n], minute);
      var before := Present(samples, calendar, days[..n], minute);
      if value.Some? {
        DaysSumWithout(samples, calendar, all, minute, days[n]);
        SumSnoc(before, value.value);
        assert Present(samples, calendar, days, minute) == before + [value.value];
      } else {
        assert Present(samples, calendar, days, minute) == before;
      }
    }
  }

  lemma SumSnoc(values: seq<real>, last: real)
    ensures Sum(values + [last]) == Sum(values) + last
  {
    assert (values + [last])[..|values|] == values;
  }

  // The count is the number of earlier days with a value at the minute, and the average their mean.
  ghost predicate IsMean(samples: seq<Sample>, calendar: Calendar, today: int, point: ComparisonPoint) {
    var days := DaysWithValue(samples, calendar, EarlierDays(samples, calendar, today), point.minute);
    && point.minute < 1440 && point.sampleCount == |days| > 0
    && point.Totals(DaysSum(samples, calendar, days, point.minute))
  }

  lemma AverageIsMean(samples: seq<Sample>, calendar: Calendar, today: int, point: ComparisonPoint)
    requires point in Collected(Columns(samples, calendar, today))
    ensures IsMean(samples, calendar, today, point)
  {
    var columns, days := Columns(samples, calendar, today), EarlierDays(samples, calendar, today);
    CountIsDays(samples, calendar, today, point);
    CollectedShape(columns);
    AverageTimes(point.minute, columns[point.minute]);
    EarlierDaysAre(samples, calendar, today);
    PresentSum(samples, calendar, days, point.minute);
    assert columns[point.minute] == Present(samples, calendar, days, point.minute);
  }

  lemma AverageTimes(minute: nat, values: seq<real>)
    requires values != []
    ensures PointOf(minute, values).Totals(Sum(values))
  {
    QuotientTimes(Sum(values), |values| as real);
  }

  lemma QuotientTimes(sum: real, n: real)
    requires n > 0.0
    ensures sum / n * n == sum
  {
  }

  // Each minute of the day at which an earlier day has a value has its point, and no other.
  lemma MinutesIff(samples: seq<Sample>, calendar: Calendar, today: int, minute: nat)
    ensures (exists point :: point in Collected(Columns(samples, calendar, today)) && point.minute == minute)
            <==> minute < 1440 && DaysWithValue(samples, calendar, EarlierDays(samples, calendar, today), minute) != {}
  {
    var columns, days := Columns(samples, calendar, today), EarlierDays(samples, calendar, today);
    CollectedShape(columns);
    EarlierDaysAre(samples, calendar, today);
    PresentCount(samples, calendar, days, minute);
    if minute < 1440 && DaysWithValue(samples, calendar, days, minute) != {} {
      assert columns[minute] != [];
      var i :| 0 <= i < |Collected(columns)| && Collected(columns)[i].minute == minute;
      assert Collected(columns)[i] in Collected(columns);
    }
    if point :| point in Collected(columns) && point.minute == minute {
      CountIsDays(samples, calendar, today, point);
    }
  }

  lemma {:induction false} SumBounds(values: seq<real>) returns (low: real, high: real)
    requires values != []
    ensures low in values && high in values
    ensures low * |values| as real <= Sum(values) <= high * |values| as real
  {
    var n := |values| - 1;
    var last := values[n];
    low, high := last, last;
    if n > 0 {
      var l, h := SumBounds(values[..n]);
      low, high := if l < last then l else last, if h > last then h else last;
      OneMore(low, l, last, n);
      OneMore(-high, -h, -last, n);
    }
  }

  lemma OneMore(low: real, l: real, last: real, n: nat)
    requires low <= l && low <= last
    ensures low * (n + 1) as real <= l * n as real + last
    ensures (-low) * (n + 1) as real >= (-l) * n as real - last
  {
    var k := n as real;
    assert (n + 1) as real == k + 1.0;
    assert (l - low) * k >= 0.0;
  }

  lemma AverageBounds(values: seq<real>) returns (low: real, high: real)
    requires values != []
    ensures low in values && high in values
    ensures low <= Sum(values) / |values| as real <= high
  {
    low, high := SumBounds(values);
    var n := |values| as real;
    Quotient(low * n, Sum(values), n);
    Quotient(Sum(values), high * n, n);
    ProductQuotient(low, n);
    ProductQuotient(high, n);
  }

  lemma {:induction false} PresentFrom(samples: seq<Sample>, calendar: Calendar, days: seq<int>, minute: nat,
      value: real)
    returns (d: int)
    requires value in Present(samples, calendar, days, minute)
    ensures d in days && DayValue(samples, calendar, d, minute) == Some(value)
  {
    var n := |days| - 1;
    if DayValue(samples, calendar, days[n], minute) == Some(value) {
      d := days[n];
    } else {
      d := PresentFrom(samples, calendar, days[..n], minute, value);
    }
  }

  lemma {:induction false} OnDayMembers(samples: seq<Sample>, calendar: Calendar, d: int)
    ensures forall s :: s in OnDay(samples, calendar, d) ==> s in samples && calendar.day(s.at) == d
  {
    if samples != [] {
      OnDayMembers(samples[..|samples| - 1], calendar, d);
    }
  }

  lemma ByTimeMembers(samples: seq<Sample>)
    ensures multiset(ByTime(samples)) == multiset(samples)
    ensures forall s :: s in ByTime(samples) <==> s in samples
  {
    StableSort.SortElements(samples, (a: Sample, b: Sample) => a.at <= b.at);
    StableSort.SameElements(ByTime(samples), samples);
  }

  // A sample that day d's value at a minute is made of: of that day, next to the minute, with a value, and
  // within 20 minutes of it.
  ghost predicate UsedOn(samples: seq<Sample>, calendar: Calendar, d: int, minute: nat, s: Sample) {
    var target := calendar.midnight(d) + minute * MINUTE;
    && s in samples && calendar.day(s.at) == d
    && Neighbour(ByTime(OnDay(samples, calendar, d)), target, s) && Supports(s, target, PICKUP)
  }

  // A day's value lies between the values of two samples it is made of.
  lemma DayValueIsSupported(samples: seq<Sample>, calendar: Calendar, d: int, minute: nat)
    returns (low: Sample, high: Sample)
    requires DayValue(samples, calendar, d, minute).Some?
    ensures UsedOn(samples, calendar, d, minute, low) && UsedOn(samples, calendar, d, minute, high)
    ensures PICKUP(low).value <= DayValue(samples, calendar, d, minute).value <= PICKUP(high).value
  {
    var own := OnDay(samples, calendar, d);
    low, high := ValueAtIsSupported(ByTime(own), calendar.midnight(d) + minute * MINUTE, PICKUP);
    ByTimeMembers(own);
    OnDayMembers(samples, calendar, d);
    assert low in own && high in own;
  }

  // A sample used for a point: by its own day, which is one of those averaged at that minute.
  ghost predicate Used(samples: seq<Sample>, calendar: Calendar, today: int, minute: nat, s: Sample) {
    var d := calendar.day(s.at);
    && d in DaysWithValue(samples, calendar, EarlierDays(samples, calendar, today), minute)
    && UsedOn(samples, calendar, d, minute, s)
  }

  // Every value averaged lies between the values of two samples used for it.
  lemma ColumnIsSupported(samples: seq<Sample>, calendar: Calendar, today: int, minute: nat, value: real)
    returns (low: Sample, high: Sample)
    requires value in Present(samples, calendar, EarlierDays(samples, calendar, today), minute)
    ensures Used(samples, calendar, today, minute, low) && Used(samples, calendar, today, minute, high)
    ensures PICKUP(low).value <= value <= PICKUP(high).value
  {
    var d := PresentFrom(samples, calendar, EarlierDays(samples, calendar, today), minute, value);
    low, high := DayValueIsSupported(samples, calendar, d, minute);
  }

  // The average of a point lies between the pickup values of two samples used for it, both from before today.
  lemma AverageIsSupported(samples: seq<Sample>, calendar: Calendar, today: int, point: ComparisonPoint)
    returns (low: Sample, high: Sample)
    requires point in Collected(Columns(samples, calendar, today))
    ensures Used(samples, calendar, today, point.minute, low) && calendar.day(low.at) < today
    ensures Used(samples, calendar, today, point.minute, high) && calendar.day(high.at) < today
    ensures PICKUP(low).value <= point.average <= PICKUP(high).value
  {
    var columns := Columns(samples, calendar, today);
    CollectedShape(columns);
    EarlierDaysAre(samples, calendar, today);
    var l, h := AverageBounds(columns[point.minute]);
    var unused;
    low, unused := ColumnIsSupported(samples, calendar, today, point.minute, l);
    unused, high := ColumnIsSupported(samples, calendar, today, point.minute, h);
  }

  function BeforeToday(samples: seq<Sample>, calendar: Calendar, today: int): seq<Sample> {
    Select(samples, (s: Sample) => calendar.day(s.at) < today)
  }

  lemma {:induction false} OnDayConcat(a: seq<Sample>, b: seq<Sample>, calendar: Calendar, d: int)
    ensures OnDay(a + b, calendar, d) == OnDay(a, calendar, d) + OnDay(b, calendar, d)
  {
    if b == [] {
      assert a + b == a;
    } else {
      var n := |b| - 1;
      OnDayConcat(a, b[..n], calendar, d);
      assert (a + b)[..|a + b| - 1] == a + b[..n];
    }
  }

  lemma {:induction false} OnDayBeforeToday(samples: seq<Sample>, calendar: Calendar, today: int, d: int)
    requires d < today
    ensures OnDay(BeforeToday(samples, calendar, today), calendar, d) == OnDay(samples, calendar, d)
  {
    if samples != [] {
      var p := (s: Sample) => calendar.day(s.at) < today;
      var rest := samples[1..];
      OnDayBeforeToday(rest, calendar, today, d);
      assert samples == [samples[0]] + rest;
      OnDayConcat([samples[0]], rest, calendar, d);
      OnDayConcat([samples[0]], BeforeToday(rest, calendar, today), calendar, d);
    }
  }

  lemma {:induction false} PresentCongruence(a: seq<Sample>, b: seq<Sample>, calendar: Calendar, days: seq<int>,
      minute: nat)
    requires forall d :: d in days ==> OnDay(a, calendar, d) == OnDay(b, calendar, d)
    ensures Present(a, calendar, days, minute) == Present(b, calendar, days, minute)
  {
    if days != [] {
      PresentCongruence(a, b, calendar, days[..|days| - 1], minute);
    }
  }

  // Samples of today, or later, make no difference.
  lemma TodayDoesNotCount(samples: seq<Sample>, calendar: Calendar, today: int)
    ensures Columns(BeforeToday(samples, calendar, today), calendar, today) == Columns(samples, calendar, today)
  {
    var earlier := BeforeToday(samples, calendar, today);
    SelectMembers(samples, (s: Sample) => calendar.day(s.at) < today);
    var days, days' := EarlierDays(samples, calendar, today), EarlierDays(earlier, calendar, today);
    EarlierDaysAre(samples, calendar, today);
    EarlierDaysAre(earlier, calendar, today);
    AscendingUnique(days', days);
    forall d | d in days ensures OnDay(earlier, calendar, d) == OnDay(samples, calendar, d) {
      OnDayBeforeToday(samples, calendar, today, d);
    }
    forall minute: nat | minute < DAY_MINUTES
      ensures Columns(earlier, calendar, today)[minute] == Columns(samples, calendar, today)[minute]
    {
      PresentCongruence(earlier, samples, calendar, days, minute);
    }
  }
}
