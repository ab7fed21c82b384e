/** Wait-time history: one interpolated point a minute from irregular samples. Times are nanoseconds. */
module History {
  import opened Wrappers
  import opened Sequences

  const MINUTE := 60_000_000_000
  const MAX_GAP := 1200    // seconds

  datatype Sample = Sample(at: int, pickup: Option<real>, delivery: Option<real>, cups: Option<real>,
      orders: Option<real>)

  type Field = Sample -> Option<real>

  const PICKUP: Field := (s: Sample) => s.pickup
  const DELIVERY: Field := (s: Sample) => s.delivery
  const CUPS: Field := (s: Sample) => s.cups
  const ORDERS: Field := (s: Sample) => s.orders

  // TimeDelta::num_seconds drops the fraction, towards zero.
  function Seconds(duration: int): int {
    if duration >= 0 then duration / 1_000_000_000 else -((-duration) / 1_000_000_000)
  }

  // Whole seconds: the fraction that is dropped is less than one.
  lemma SecondsIs(duration: int)
    ensures var whole := Seconds(duration) * 1_000_000_000;
            && (duration >= 0 ==> 0 <= whole <= duration < whole + 1_000_000_000)
            && (duration <= 0 ==> whole - 1_000_000_000 < duration <= whole <= 0)
  {
  }

  // In reach: less than 1201 seconds.
  lemma ReachIs(duration: int)
    ensures Seconds(duration) <= MAX_GAP <==> duration < 1_201_000_000_000
  {
  }

  function Clamp(x: int, low: int, high: int): int {
    if x < low then low else if x > high then high else x
  }

  function ValueOf(sample: Option<Sample>, field: Field): Option<real> {
    if sample.Some? then field(sample.value) else None
  }

  function Blend(b: real, a: real, offset: int, gap: int): real
    requires gap > 0
  {
    b + Part(a - b, offset as real, gap as real)
  }

  function Part(whole: real, offset: real, gap: real): real
    requires gap > 0.0
  {
    whole * offset / gap
  }

  function Interpolate(before: Option<Sample>, after: Option<Sample>, target: int, field: Field): Option<real> {
    match (ValueOf(before, field), ValueOf(after, field))
    case (Some(b), Some(a)) =>
      var gap := Seconds(after.value.at - before.value.at);
      if gap < 0 || gap > MAX_GAP then None
      else if gap == 0 then Some(b)
      else
        var offset := Clamp(Seconds(target - before.value.at), 0, gap);
        Some(Blend(b, a, offset, gap))
    case (Some(b), None) => if Seconds(target - before.value.at) <= MAX_GAP then Some(b) else None
    case (None, Some(a)) => if Seconds(after.value.at - target) <= MAX_GAP then Some(a) else None
    case (None, None) => None
  }

  // ---- The neighbours of a minute, by a full scan

  ghost predicate Sorted(samples: seq<Sample>) {
    forall i, j :: 0 <= i < j < |samples| ==> samples[i].at <= samples[j].at
  }

  function LastBefore(samples: seq<Sample>, target: int): Option<Sample> {
    if samples == [] then None else
      var last := samples[|samples| - 1];
      if last.at < target then Some(last) else LastBefore(samples[..|samples| - 1], target)
  }

  function FirstFrom(samples: seq<Sample>, target: int): Option<Sample> {
    if samples == [] then None
    else if samples[0].at >= target then Some(samples[0])
    else FirstFrom(samples[1..], target)
  }

  function ValueAt(samples: seq<Sample>, target: int, field: Field): Option<real> {
    Interpolate(LastBefore(samples, target), FirstFrom(samples, target), target, field)
  }

  // A sweep that stopped at index has the samples before the target on its left and no others.
  ghost predicate SweptTo(samples: seq<Sample>, index: nat, target: int) {
    && index <= |samples|
    && (forall i :: 0 <= i < index ==> samples[i].at < target)
    && (index < |samples| ==> samples[index].at >= target)
  }

  function Get(samples: seq<Sample>, index: int): Option<Sample> {
    if 0 <= index < |samples| then Some(samples[index]) else None
  }

  lemma {:induction false} SweepFindsLast(samples: seq<Sample>, index: nat, target: int)
    requires Sorted(samples) && SweptTo(samples, index, target)
    ensures LastBefore(samples, target) == Get(samples, index - 1)
  {
    if |samples| > index {
      var n := |samples| - 1;
      assert samples[n].at >= target;
      SweepFindsLast(samples[..n], index, target);
    }
  }

  lemma {:induction false} SweepFindsFirst(samples: seq<Sample>, index: nat, target: int)
    requires SweptTo(samples, index, target)
    ensures FirstFrom(samples, target) == Get(samples, index)
  {
    if index > 0 {
      assert samples[0].at < target;
      SweepFindsFirst(samples[1..], index - 1, target);
    }
  }

  // ---- The two loops

  datatype HistoryPoint = HistoryPoint(
    start: int, end: int, pickup: Option<real>, minPickup: Option<int>, maxPickup: Option<int>,
    delivery: Option<real>, cups: Option<real>, orders: Option<real>, sampleCount: nat)

  // f64::round (halves away from zero), then a saturating cast to i32.
  function Rounded(value: real): int {
    var whole := if value >= 0.0 then (value + 0.5).Floor else -(0.5 - value).Floor;
    Clamp(whole, -0x8000_0000, 0x7fff_ffff)
  }

  // Halves away from zero, and no further than 32 bits reach.
  ghost predicate RoundsTo(value: real, n: int) {
    if value >= 2147483647.0 then n == 2147483647
    else if value <= -2147483648.0 then n == -2147483648
    else if value >= 0.0 then n as real - 0.5 <= value < n as real + 0.5
    else n as real - 0.5 < value <= n as real + 0.5
  }

  lemma RoundedIs(value: real)
    ensures RoundsTo(value, Rounded(value))
  {
  }

  function PointFrom(before: Option<Sample>, after: Option<Sample>, target: int): HistoryPoint {
    var pickup := Interpolate(before, after, target, PICKUP);
    var rounded := if pickup.Some? then Some(Rounded(pickup.value)) else None;
    HistoryPoint(
      target, target + MINUTE, pickup, rounded, rounded,
      Interpolate(before, after, target, DELIVERY),
      Interpolate(before, after, target, CUPS),
      Interpolate(before, after, target, ORDERS),
      if pickup.Some? then 1 else 0)
  }

  function PointAt(samples: seq<Sample>, target: int): HistoryPoint {
    PointFrom(LastBefore(samples, target), FirstFrom(samples, target), target)
  }

  // The fields of a minute's point.
  ghost predicate IsPoint(samples: seq<Sample>, target: int, point: HistoryPoint) {
    && point.start == target && point.end == target + 60_000_000_000
    && point.pickup == ValueAt(samples, target, PICKUP)
    && point.delivery == ValueAt(samples, target, DELIVERY)
    && point.cups == ValueAt(samples, target, CUPS)
    && point.orders == ValueAt(samples, target, ORDERS)
    && point.minPickup == point.maxPickup && (point.minPickup.Some? <==> point.pickup.Some?)
    && (point.pickup.Some? ==> RoundsTo(point.pickup.value, point.minPickup.value))
    && point.sampleCount == if point.pickup.Some? then 1 else 0
  }

  lemma PointIs(samples: seq<Sample>, target: int)
    ensures IsPoint(samples, target, PointAt(samples, target))
  {
    var pickup := ValueAt(samples, target, PICKUP);
    if pickup.Some? {
      RoundedIs(pickup.value);
    }
  }

  lemma FieldsAre(s: Sample)
    ensures PICKUP(s) == s.pickup && DELIVERY(s) == s.delivery && CUPS(s) == s.cups && ORDERS(s) == s.orders
  {
  }

  function MinutesBetween(start: int, end: int): nat {
    if end < start then 0 else (end - start) / MINUTE + 1
  }

  method Sweep(samples: seq<Sample>, from: nat, target: int) returns (index: nat)
    requires Sorted(samples)
    requires from <= |samples| && forall i :: 0 <= i < from ==> samples[i].at < target
    ensures SweptTo(samples, index, target)
    ensures Get(samples, index - 1) == LastBefore(samples, target)
    ensures Get(samples, index) == FirstFrom(samples, target)
  {
    index := from;
    while index < |samples| && samples[index].at < target
      invariant index <= |samples|
      invariant forall i :: 0 <= i < index ==> samples[i].at < target
    {
      index := index + 1;
    }
    SweepFindsLast(samples, index, target);
    SweepFindsFirst(samples, index, target);
  }

  method InterpolatedHistoryPoints(samples: seq<Sample>, start: int, end: int) returns (points: seq<HistoryPoint>)
    requires Sorted(samples)
    ensures |points| == MinutesBetween(start, end)
    ensures forall k :: 0 <= k < |points| ==> IsPoint(samples, start + k * MINUTE, points[k])
  {
    points := [];
    var cursor := start;
    var index: nat := 0;
    while cursor <= end
      invariant cursor == start + |points| * MINUTE
      invariant index <= |samples| && forall i :: 0 <= i < index ==> samples[i].at < cursor
      invariant start <= end + MINUTE ==> cursor <= end + MINUTE
      invariant start > end ==> points == []
      invariant forall k :: 0 <= k < |points| ==> IsPoint(samples, start + k * MINUTE, points[k])
      decreases end - cursor
    {
      index := Sweep(samples, index, cursor);
      PointIs(samples, cursor);
      points := points + [PointFrom(Get(samples, index - 1), Get(samples, index), cursor)];
      cursor := cursor + MINUTE;
    }
  }

  method InterpolatedPickupValues(samples: seq<Sample>, start: int, minutes: nat) returns (values: seq<Option<real>>)
    requires Sorted(samples)
    ensures |values| == minutes
    ensures forall k :: 0 <= k < minutes ==> values[k] == ValueAt(samples, start + k * MINUTE, PICKUP)
  {
    values := [];
    var index: nat := 0;
    for minute := 0 to minutes
      invariant |values| == minute
      invariant index <= |samples| && forall i :: 0 <= i < index ==> samples[i].at < start + minute * MINUTE
      invariant forall k :: 0 <= k < minute ==> values[k] == ValueAt(samples, start + k * MINUTE, PICKUP)
    {
      var target := start + minute * MINUTE;
      index := Sweep(samples, index, target);
      values := values + [Interpolate(Get(samples, index - 1), Get(samples, index), target, PICKUP)];
    }
  }

  // The history loop and the pickup-only loop agree minute by minute, and the points are contiguous.
  method LoopsAgree(samples: seq<Sample>, start: int, end: int)
    returns (points: seq<HistoryPoint>, values: seq<Option<real>>)
    requires Sorted(samples)
    ensures |points| == |values| == MinutesBetween(start, end)
    ensures forall k :: 0 <= k < |points| ==> points[k].pickup == values[k]
    ensures forall k :: 0 < k < |points| ==> points[k].start == points[k - 1].end
    ensures |points| > 0 ==> points[0].start == start && points[|points| - 1].start <= end < points[|points| - 1].end
  {
    points := InterpolatedHistoryPoints(samples, start, end);
    values := InterpolatedPickupValues(samples, start, |points|);
  }

  // ---- What an interpolated value is

  ghost predicate Between(x: real, low: real, high: real) {
    low <= x <= high || high <= x <= low
  }

  // The samples around a target: strictly before it, and at or after it.
  ghost predicate Around(before: Option<Sample>, after: Option<Sample>, target: int) {
    && (before.Some? ==> before.value.at < target)
    && (after.Some? ==> target <= after.value.at)
  }

  lemma SecondsMonotone(a: int, b: int)
    requires a <= b
    ensures Seconds(a) <= Seconds(b)
  {
  }

  lemma Product(d: real, x: real, y: real)
    requires d >= 0.0 && x <= y
    ensures d * x <= d * y
  {
  }

  lemma Quotient(p: real, q: real, g: real)
    requires g > 0.0 && p <= q
    ensures p / g <= q / g
  {
  }

  lemma ProductQuotient(d: real, g: real)
    requires g > 0.0
    ensures d * g / g == d
  {
  }

  lemma Negated(d: real, x: real, g: real)
    requires g > 0.0
    ensures (-d) * x / g == -(d * x / g)
  {
    assert (-d) * x == -(d * x);
  }

  // The share of a difference that a fraction takes grows with the fraction.
  lemma PartGrows(d: real, x: real, y: real, g: real)
    requires d >= 0.0 && 0.0 <= x <= y <= g && g > 0.0
    ensures 0.0 <= Part(d, x, g) <= Part(d, y, g) <= d
  {
    Product(d, 0.0, x);
    Product(d, x, y);
    Product(d, y, g);
    Quotient(0.0, d * x, g);
    Quotient(d * x, d * y, g);
    Quotient(d * y, d * g, g);
    ProductQuotient(d, g);
  }

  lemma PartShrinks(d: real, x: real, y: real, g: real)
    requires d <= 0.0 && 0.0 <= x <= y <= g && g > 0.0
    ensures d <= Part(d, y, g) <= Part(d, x, g) <= 0.0
  {
    PartGrows(-d, x, y, g);
    assert Part(-d, x, g) >= 0.0;
    Negated(d, x, g);
    Negated(d, y, g);
  }

  // A weighted mean moves from b to a as the offset grows from 0 to the gap.
  lemma BlendMonotone(b: real, a: real, m: int, n: int, gap: int)
    requires 0 <= m <= n <= gap && gap > 0
    ensures a >= b ==> b <= Blend(b, a, m, gap) <= Blend(b, a, n, gap) <= a
    ensures a <= b ==> a <= Blend(b, a, n, gap) <= Blend(b, a, m, gap) <= b
  {
    if a >= b {
      PartGrows(a - b, m as real, n as real, gap as real);
    }
    if a <= b {
      PartShrinks(a - b, m as real, n as real, gap as real);
    }
  }

  lemma BlendEnd(b: real, a: real, gap: int)
    requires gap > 0
    ensures Blend(b, a, gap, gap) == a
  {
    ProductQuotient(a - b, gap as real);
  }

  // Exactly when a minute has a value, and what bounds it.
  lemma InterpolateBounds(before: Option<Sample>, after: Option<Sample>, target: int, field: Field)
    requires Around(before, after, target)
    ensures var b, a, v := ValueOf(before, field), ValueOf(after, field), Interpolate(before, after, target, field);
            && (v.Some? <==>
                  if b.Some? && a.Some? then after.value.at - before.value.at < 1_201_000_000_000
                  else if b.Some? then target - before.value.at < 1_201_000_000_000
                  else a.Some? && after.value.at - target < 1_201_000_000_000)
            && (v.Some? && b.Some? ==> target - before.value.at < 1_201_000_000_000)
            && (v.Some? && a.Some? ==> after.value.at - target < 1_201_000_000_000)
            && (v.Some? && b.Some? && a.Some? ==> Between(v.value, b.value, a.value))
            && (v.Some? && b.Some? && a.None? ==> v.value == b.value)
            && (v.Some? && b.None? && a.Some? ==> v.value == a.value)
  {
    var b, a := ValueOf(before, field), ValueOf(after, field);
    if b.Some? && a.Some? {
      var gap := Seconds(after.value.at - before.value.at);
      SecondsMonotone(target - before.value.at, after.value.at - before.value.at);
      SecondsMonotone(after.value.at - target, after.value.at - before.value.at);
      if 0 < gap {
        var offset := Clamp(Seconds(target - before.value.at), 0, gap);
        BlendMonotone(b.value, a.value, offset, offset, gap);
      }
    }
  }

  // The value v divides the way from b to a as the offset divides the gap.
  ghost predicate Divides(v: real, b: real, a: real, offset: int, gap: int) {
    (v - b) * gap as real == (a - b) * offset as real && (gap == 0 ==> v == b)
  }

  lemma BlendDivides(b: real, a: real, offset: int, gap: int)
    requires gap > 0
    ensures Divides(Blend(b, a, offset, gap), b, a, offset, gap)
  {
    PartTimes(a - b, offset as real, gap as real);
  }

  lemma StartDivides(b: real, a: real)
    ensures Divides(b, b, a, 0, 0)
  {
  }

  // Between one pair of samples the value divides the way from the earlier one's to the later one's as the
  // whole seconds divide the gap; without a whole second between the two it is the earlier one's.
  lemma InterpolateIsLinear(before: Sample, after: Sample, t: int, field: Field)
    requires before.at < t <= after.at && after.at - before.at < 1_201_000_000_000
    requires field(before).Some? && field(after).Some?
    ensures var b, a := field(before).value, field(after).value;
            var v, gap, offset := Interpolate(Some(before), Some(after), t, field), Seconds(after.at - before.at),
                Seconds(t - before.at);
            && v.Some?
            && Divides(v.value, b, a, offset, gap)
  {
    var gap := Seconds(after.at - before.at);
    SecondsMonotone(t - before.at, after.at - before.at);
    ReachIs(after.at - before.at);
    if gap > 0 {
      InterpolateIsBlend(before, after, t, field);
      BlendDivides(field(before).value, field(after).value, Seconds(t - before.at), gap);
    } else {
      assert Interpolate(Some(before), Some(after), t, field) == field(before) && Seconds(t - before.at) == 0;
      StartDivides(field(before).value, field(after).value);
    }
  }

  // What the value of a minute is, told from the samples next to it.
  ghost predicate IsValue(v: real, before: Option<Sample>, after: Option<Sample>, target: int, field: Field) {
    match (ValueOf(before, field), ValueOf(after, field))
    case (Some(b), Some(a)) =>
      Divides(v, b, a, Seconds(target - before.value.at), Seconds(after.value.at - before.value.at))
    case (Some(b), None) => v == b
    case (None, Some(a)) => v == a
    case (None, None) => false
  }

  lemma InterpolateIsValue(before: Option<Sample>, after: Option<Sample>, target: int, field: Field)
    requires Around(before, after, target) && Interpolate(before, after, target, field).Some?
    ensures IsValue(Interpolate(before, after, target, field).value, before, after, target, field)
  {
    if ValueOf(before, field).Some? && ValueOf(after, field).Some? {
      ReachIs(after.value.at - before.value.at);
      InterpolateIsLinear(before.value, after.value, target, field);
    }
  }

  lemma ValueAtIs(samples: seq<Sample>, target: int, field: Field)
    requires ValueAt(samples, target, field).Some?
    ensures IsValue(ValueAt(samples, target, field).value, LastBefore(samples, target), FirstFrom(samples, target),
                    target, field)
  {
    LastBeforeIs(samples, target);
    FirstFromIs(samples, target);
    InterpolateIsValue(LastBefore(samples, target), FirstFrom(samples, target), target, field);
  }

  lemma InterpolateIsBlend(before: Sample, after: Sample, t: int, field: Field)
    requires before.at < t <= after.at
    requires field(before).Some? && field(after).Some? && 0 < Seconds(after.at - before.at) <= MAX_GAP
    ensures 0 <= Seconds(t - before.at) <= Seconds(after.at - before.at)
    ensures Interpolate(Some(before), Some(after), t, field)
            == Some(Blend(field(before).value, field(after).value,
                          Seconds(t - before.at), Seconds(after.at - before.at)))
  {
    SecondsMonotone(t - before.at, after.at - before.at);
  }

  // Between one pair of samples the value moves from the earlier one's to the later one's.
  lemma InterpolateMonotone(before: Sample, after: Sample, t: int, u: int, field: Field)
    requires before.at < t <= u <= after.at
    requires field(before).Some? && field(after).Some? && Seconds(after.at - before.at) <= MAX_GAP
    ensures var v := Interpolate(Some(before), Some(after), t, field);
            var w := Interpolate(Some(before), Some(after), u, field);
            && v.Some? && w.Some?
            && (field(before).value <= field(after).value ==> v.value <= w.value)
            && (field(before).value >= field(after).value ==> v.value >= w.value)
  {
    var gap := Seconds(after.at - before.at);
    if gap > 0 {
      InterpolateIsBlend(before, after, t, field);
      InterpolateIsBlend(before, after, u, field);
      SecondsMonotone(t - before.at, u - before.at);
      BlendMonotone(field(before).value, field(after).value, Seconds(t - before.at), Seconds(u - before.at), gap);
    }
  }

  // At a sample's own time its value is shown, exactly unless the sample before it has a value too and is
  // either out of reach (then nothing is shown) or less than a second older (then the older value is).
  lemma InterpolateAtSample(before: Option<Sample>, after: Sample, field: Field)
    requires before.Some? ==> before.value.at < after.at
    requires field(after).Some?
    ensures Interpolate(before, Some(after), after.at, field) == field(after)
            <==> (ValueOf(before, field).Some? ==>
                    var gap := Seconds(after.at - before.value.at);
                    gap <= MAX_GAP && (gap > 0 || field(before.value) == field(after)))
  {
    if ValueOf(before, field).Some? {
      var gap := Seconds(after.at - before.value.at);
      if gap > 0 {
        BlendEnd(field(before.value).value, field(after).value, gap);
      }
    }
  }

  // After 21 minutes without a sample, the minute of the next one shows nothing.
  lemma NothingAfterLongGap()
    ensures var first := Sample(0, Some(5.0), None, None, None);
            var second := Sample(21 * MINUTE, Some(9.0), None, None, None);
            ValueAt([first, second], second.at, PICKUP) == None
  {
    var first, second := Sample(0, Some(5.0), None, None, None), Sample(21 * MINUTE, Some(9.0), None, None, None);
    NeighboursOfPair(first, second, second.at);
  }

  lemma NeighboursOfPair(first: Sample, second: Sample, target: int)
    requires first.at < target <= second.at
    ensures LastBefore([first, second], target) == Some(first)
    ensures FirstFrom([first, second], target) == Some(second)
    ensures LastBefore([second], target) == None && FirstFrom([second], target) == Some(second)
  {
    assert [first, second][..1] == [first] && [first, second][1..] == [second];
    assert LastBefore([first], target) == Some(first);
    assert FirstFrom([second], target) == Some(second);
    assert [second][..0] == [] && LastBefore([], target) == None;
  }

  // The sample before a target is the latest of those strictly earlier ...
  lemma {:induction false} LastBeforeIs(samples: seq<Sample>, target: int)
    ensures var last := LastBefore(samples, target);
            && (last.None? ==> forall s :: s in samples ==> s.at >= target)
            && (last.Some? ==> last.value in samples && last.value.at < target)
            && (last.Some? && Sorted(samples) ==> forall s :: s in samples && s.at < target ==> s.at <= last.value.at)
  {
    if samples != [] {
      LastBeforeIs(samples[..|samples| - 1], target);
      assert samples == samples[..|samples| - 1] + [samples[|samples| - 1]];
    }
  }

  // ... and the one after it the earliest of the others.
  lemma {:induction false} FirstFromIs(samples: seq<Sample>, target: int)
    ensures var first := FirstFrom(samples, target);
            && (first.None? ==> forall s :: s in samples ==> s.at < target)
            && (first.Some? ==> first.value in samples && first.value.at >= target)
            && (first.Some? && Sorted(samples) ==>
                  forall s :: s in samples && s.at >= target ==> s.at >= first.value.at)
  {
    if samples != [] {
      FirstFromIs(samples[1..], target);
      assert samples == [samples[0]] + samples[1..];
    }
  }

  // A sample within 20 minutes (in whole seconds) of the target that has a value.
  ghost predicate Supports(s: Sample, target: int, field: Field) {
    && field(s).Some?
    && (if s.at < target then target - s.at else s.at - target) < 1_201_000_000_000
  }

  // One of the two samples that a minute's value is made of.
  ghost predicate Neighbour(samples: seq<Sample>, target: int, s: Sample) {
    LastBefore(samples, target) == Some(s) || FirstFrom(samples, target) == Some(s)
  }

  // No value is invented: each lies between two values of its neighbours within 20 minutes of its minute.
  lemma ValueAtIsSupported(samples: seq<Sample>, target: int, field: Field) returns (low: Sample, high: Sample)
    requires ValueAt(samples, target, field).Some?
    ensures low in samples && Neighbour(samples, target, low) && Supports(low, target, field)
    ensures high in samples && Neighbour(samples, target, high) && Supports(high, target, field)
    ensures field(low).value <= ValueAt(samples, target, field).value <= field(high).value
  {
    var before, after := LastBefore(samples, target), FirstFrom(samples, target);
    LastBeforeIs(samples, target);
    FirstFromIs(samples, target);
    InterpolateBounds(before, after, target, field);
    var b, a := ValueOf(before, field), ValueOf(after, field);
    if b.None? {
      low, high := after.value, after.value;
    } else if a.None? {
      low, high := before.value, before.value;
    } else if b.value <= a.value {
      low, high := before.value, after.value;
    } else {
      low, high := after.value, before.value;
    }
  }

  // Told from the samples: some neighbour with a value is within reach, and no gap between two neighbours
  // with values is too wide.
  ghost predicate Reached(samples: seq<Sample>, target: int, field: Field) {
    var before, after := LastBefore(samples, target), FirstFrom(samples, target);
    && (exists s :: s in samples && Neighbour(samples, target, s) && Supports(s, target, field))
    && (ValueOf(before, field).Some? && ValueOf(after, field).Some? ==>
          after.value.at - before.value.at < 1_201_000_000_000)
  }

  lemma ValueAtIff(samples: seq<Sample>, target: int, field: Field)
    ensures ValueAt(samples, target, field).Some? <==> Reached(samples, target, field)
  {
    var before, after := LastBefore(samples, target), FirstFrom(samples, target);
    LastBeforeIs(samples, target);
    FirstFromIs(samples, target);
    InterpolateBounds(before, after, target, field);
    if ValueAt(samples, target, field).Some? {
      var low, high := ValueAtIsSupported(samples, target, field);
    }
  }

  // ---- The request: whole minutes, and only the samples since 20 minutes before its start

  function FloorMinute(time: int): int {
    time - time / 1_000_000_000 % 60 * 1_000_000_000 - time % 1_000_000_000
  }

  lemma FloorMinuteIs(time: int)
    ensures FloorMinute(time) <= time < FloorMinute(time) + MINUTE
    ensures FloorMinute(time) % MINUTE == 0
  {
    var seconds := time / 1_000_000_000;
    assert time == seconds * 1_000_000_000 + time % 1_000_000_000;
    assert seconds == seconds / 60 * 60 + seconds % 60;
    assert FloorMinute(time) == seconds / 60 * MINUTE;
  }

  function Since(samples: seq<Sample>, from: int): seq<Sample> {
    Select(samples, (s: Sample) => s.at >= from)
  }

  // Of sorted samples, those since a time are a suffix.
  lemma {:induction false} SinceIsSuffix(samples: seq<Sample>, from: int) returns (k: nat)
    requires Sorted(samples)
    ensures k <= |samples| && Since(samples, from) == samples[k..]
    ensures forall i :: 0 <= i < k ==> samples[i].at < from
    ensures forall i :: k <= i < |samples| ==> samples[i].at >= from
  {
    k := 0;
    if samples != [] {
      var l := SinceIsSuffix(samples[1..], from);
      if samples[0].at < from {
        k := l + 1;
        assert samples[k..] == samples[1..][l..];
      } else if l > 0 {
        assert false;
      }
    }
  }

  lemma {:induction false} SweepStops(samples: seq<Sample>, target: int) returns (index: nat)
    ensures SweptTo(samples, index, target)
  {
    index := 0;
    if samples != [] && samples[0].at < target {
      var i := SweepStops(samples[1..], target);
      index := i + 1;
      assert forall j :: 0 < j < |samples| ==> samples[j] == samples[1..][j - 1];
    }
  }

  lemma SweptSuffix(samples: seq<Sample>, k: nat, index: nat, target: int)
    requires SweptTo(samples, index, target)
    requires k <= |samples| && forall i :: 0 <= i < k ==> samples[i].at < target
    ensures k <= index && SweptTo(samples[k..], index - k, target)
    ensures Sorted(samples) ==> Sorted(samples[k..])
    ensures Get(samples[k..], index - k) == Get(samples, index)
    ensures Get(samples[k..], index - k - 1) == if index > k then Get(samples, index - 1) else None
  {
  }

  // Leaving out older samples can only take away the one before the target.
  lemma SinceNeighbours(samples: seq<Sample>, from: int, target: int)
    requires Sorted(samples) && from <= target
    ensures FirstFrom(Since(samples, from), target) == FirstFrom(samples, target)
    ensures var before := LastBefore(samples, target);
            LastBefore(Since(samples, from), target) == if before.Some? && before.value.at < from then None else before
  {
    var k := SinceIsSuffix(samples, from);
    var index := SweepStops(samples, target);
    SweepFindsLast(samples, index, target);
    SweepFindsFirst(samples, index, target);
    SweptSuffix(samples, k, index, target);
    SweepFindsLast(samples[k..], index - k, target);
    SweepFindsFirst(samples[k..], index - k, target);
    if index > 0 {
      assert samples[index - 1].at < from <==> index <= k;
      assert Get(samples, index - 1) == Some(samples[index - 1]);
    }
  }

  // The sample before the target has a value but is left out, and that shows: the value after it now
  // stands alone, where it was over too wide a gap or not yet reached; or a value not out of reach is gone.
  predicate LossShows(before: Option<Sample>, after: Option<Sample>, from: int, target: int, field: Field) {
    && before.Some? && before.value.at < from && field(before.value).Some?
    && if ValueOf(after, field).Some? then
         var gap := Seconds(after.value.at - before.value.at);
         if gap > MAX_GAP then Seconds(after.value.at - target) <= MAX_GAP
         else field(before.value) != field(after.value) && (gap == 0 || Seconds(target - before.value.at) < gap)
       else Seconds(target - before.value.at) <= MAX_GAP
  }

  // Only at its end does a weighted mean of two different values reach the second.
  lemma BlendBeforeEnd(b: real, a: real, offset: int, gap: int)
    requires 0 <= offset < gap && a != b
    ensures Blend(b, a, offset, gap) != a
  {
    var d, x, g := a - b, offset as real, gap as real;
    if Blend(b, a, offset, gap) == a {
      assert Part(d, x, g) == d;
      PartTimes(d, x, g);
      Cancel(d, x, g);
    }
  }

  lemma PartTimes(whole: real, offset: real, gap: real)
    requires gap > 0.0
    ensures Part(whole, offset, gap) * gap == whole * offset
  {
  }

  lemma Cancel(d: real, x: real, y: real)
    requires d != 0.0 && d * x == d * y
    ensures x == y
  {
  }

  // A point made of the samples since `from` is the point all samples would make, unless the loss of the
  // sample before it shows. That goes for every minute from `from` on, and so for all minutes of a range,
  // the one its start lies in included.
  lemma WindowAgreesIff(samples: seq<Sample>, from: int, target: int, field: Field)
    requires Sorted(samples) && from <= target
    ensures ValueAt(Since(samples, from), target, field) == ValueAt(samples, target, field)
            <==> !LossShows(LastBefore(samples, target), FirstFrom(samples, target), from, target, field)
  {
    var before, after := LastBefore(samples, target), FirstFrom(samples, target);
    LastBeforeIs(samples, target);
    FirstFromIs(samples, target);
    SinceNeighbours(samples, from, target);
    if before.Some? && before.value.at < from && ValueOf(before, field).Some? && ValueOf(after, field).Some? {
      LostBefore(before.value, after.value, target, field);
    }
  }

  // What losing the sample before does between two samples with values.
  lemma LostBefore(before: Sample, after: Sample, target: int, field: Field)
    requires before.at < target <= after.at && field(before).Some? && field(after).Some?
    ensures Interpolate(None, Some(after), target, field) == Interpolate(Some(before), Some(after), target, field)
            <==> !LossShows(Some(before), Some(after), before.at + 1, target, field)
  {
    var gap := Seconds(after.at - before.at);
    SecondsMonotone(after.at - target, after.at - before.at);
    if 0 < gap <= MAX_GAP {
      InterpolateIsBlend(before, after, target, field);
      var offset := Seconds(target - before.at);
      if offset == gap {
        BlendEnd(field(before).value, field(after).value, gap);
      } else if field(before) != field(after) {
        BlendBeforeEnd(field(before).value, field(after).value, offset, gap);
      } else {
        BlendMonotone(field(before).value, field(after).value, offset, offset, gap);
      }
    }
  }

  lemma SinceSecond(first: Sample, second: Sample, from: int)
    requires first.at < from <= second.at
    ensures Since([first, second], from) == [second]
  {
    assert [first, second][1..] == [second] && [second][1..] == [];
    assert Since([], from) == [];
    assert Since([second], from) == [second] + Since([], from);
    assert Since([first, second], from) == Since([second], from);
  }

  // Two samples 21 minutes apart leave a gap between them; a range that starts 20 minutes after the first
  // closes it with the value of the second.
  lemma WindowClosesGap()
    ensures var first := Sample(0, Some(5.0), None, None, None);
            var second := Sample(21 * MINUTE, Some(9.0), None, None, None);
            var start := 20 * MINUTE + 1;
            && ValueAt([first, second], start, PICKUP) == None
            && ValueAt(Since([first, second], start - MAX_GAP * 1_000_000_000), start, PICKUP) == Some(9.0)
  {
    var first, second := Sample(0, Some(5.0), None, None, None), Sample(21 * MINUTE, Some(9.0), None, None, None);
    NeighboursOfPair(first, second, 20 * MINUTE + 1);
    SinceSecond(first, second, 1);
  }

  // Within reach of each other, two samples still differ from their later one at the first point of a range
  // that starts within a minute, 50 seconds past it.
  lemma FirstPointDiffers()
    ensures var first := Sample(10_000_000_000, Some(5.0), None, None, None);
            var second := Sample(1205_000_000_000, Some(9.0), None, None, None);
            var start := 1250_000_000_000;
            && ValueAt([first, second], FloorMinute(start), PICKUP).Some?
            && ValueAt([first, second], FloorMinute(start), PICKUP).value < 9.0
            && ValueAt(Since([first, second], start - MAX_GAP * 1_000_000_000), FloorMinute(start), PICKUP) == Some(9.0)
  {
    var first := Sample(10_000_000_000, Some(5.0), None, None, None);
    var second := Sample(1205_000_000_000, Some(9.0), None, None, None);
    assert FloorMinute(1250_000_000_000) == 1200_000_000_000;
    NeighboursOfPair(first, second, 1200_000_000_000);
    SinceSecond(first, second, 50_000_000_000);
    InterpolateIsBlend(first, second, 1200_000_000_000, PICKUP);
    BlendMonotone(5.0, 9.0, 1190, 1190, 1195);
    BlendBeforeEnd(5.0, 9.0, 1190, 1195);
  }

  // The points of a request are the whole minutes from the one its start lies in to the one now lies in.
  method HistoryForSlug(samples: seq<Sample>, start: int, now: int) returns (points: seq<HistoryPoint>)
    requires Sorted(samples)
    ensures |points| == MinutesBetween(FloorMinute(start), FloorMinute(now))
    ensures forall k :: 0 <= k < |points| ==>
              IsPoint(Since(samples, start - MAX_GAP * 1_000_000_000), FloorMinute(start) + k * MINUTE, points[k])
    ensures forall k :: 0 <= k < |points| ==> points[k].start % MINUTE == 0
    ensures points != [] ==> points[0].start <= start < points[0].end
    ensures points != [] ==> points[|points| - 1].start <= now < points[|points| - 1].end
    ensures forall k :: 0 <= k < |points| ==>
              (points[k].pickup == ValueAt(samples, points[k].start, PICKUP)) ==
              !LossShows(LastBefore(samples, points[k].start), FirstFrom(samples, points[k].start),
                         start - MAX_GAP * 1_000_000_000, points[k].start, PICKUP)
  {
    var from := start - MAX_GAP * 1_000_000_000;
    ghost var k := SinceIsSuffix(samples, from);
    points := InterpolatedHistoryPoints(Since(samples, from), FloorMinute(start), FloorMinute(now));
    FloorMinuteIs(start);
    FloorMinuteIs(now);
    forall i | 0 <= i < |points| ensures points[i].start % MINUTE == 0 {
      WholeMinutes(FloorMinute(start), i);
    }
    if points != [] {
      SpanOfMinutes(FloorMinute(start), FloorMinute(now));
    }
    forall i | 0 <= i < |points|
      ensures (points[i].pickup == ValueAt(samples, points[i].start, PICKUP)) ==
              !LossShows(LastBefore(samples, points[i].start), FirstFrom(samples, points[i].start),
                         from, points[i].start, PICKUP)
    {
      WindowAgreesIff(samples, from, points[i].start, PICKUP);
    }
  }

  lemma WholeMinutes(time: int, k: nat)
    requires time % MINUTE == 0
    ensures (time + k * MINUTE) % MINUTE == 0
  {
    var m := time / MINUTE;
    assert time + k * MINUTE == (m + k) * MINUTE;
  }

  lemma SpanOfMinutes(start: int, end: int)
    requires start <= end && start % MINUTE == 0 && end % MINUTE == 0
    ensures start + (MinutesBetween(start, end) - 1) * MINUTE == end
  {
    var a, b := start / MINUTE, end / MINUTE;
    assert end - start == (b - a) * MINUTE;
  }
}
