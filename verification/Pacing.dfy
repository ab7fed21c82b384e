/** What `poll_due_wait_batches` does to schedules over every sequence of ticks. */
module Pacing {
  import opened Sequences
  import opened WaitSchedule

  // One pass of the poll loop as one schedule sees it: the clock, and whether its provider cools down.
  datatype Tick = Tick(now: real, cooling: bool)
  datatype Dispatch = Dispatch(at: real, batch: nat)
  datatype Job = Job(provider: Provider, batch: seq<int>)

  // ---- One tick

  function Polled(s: Schedule, tick: Tick): Schedule {
    if s.nextDue > tick.now || s.batches == [] then s
    else if tick.cooling then s.(nextDue := tick.now + s.spacing)
    else s.(nextDue := tick.now + s.spacing, nextBatch := (s.nextBatch + 1) % |s.batches|)
  }

  predicate Sends(s: Schedule, tick: Tick) {
    s.nextDue <= tick.now && s.batches != [] && !tick.cooling
  }

  function JobOf(s: Schedule, tick: Tick): seq<Job> {
    if Sends(s, tick) && s.nextBatch < |s.batches| then [Job(s.provider, s.batches[s.nextBatch])] else []
  }

  // The providers whose keys are among the active cooldowns.
  function Cooling(active: set<string>): Provider -> bool {
    p => CooldownKey(p) in active
  }

  function TickFor(s: Schedule, now: real, cooling: Provider -> bool): Tick {
    Tick(now, cooling(s.provider))
  }

  function Next(s: Schedule, now: real, cooling: Provider -> bool): Schedule {
    Polled(s, TickFor(s, now, cooling))
  }

  // The jobs that a tick makes, in the order of the schedules.
  function Jobs(schedules: seq<Schedule>, now: real, cooling: Provider -> bool): seq<Job> {
    if schedules == [] then [] else
      var n := |schedules| - 1;
      Jobs(schedules[..n], now, cooling) + JobOf(schedules[n], TickFor(schedules[n], now, cooling))
  }

  lemma PolledValid(s: Schedule, tick: Tick)
    requires s.Valid()
    ensures Polled(s, tick).Valid()
    ensures Polled(s, tick).batches == s.batches && Polled(s, tick).spacing == s.spacing
  {
  }

  method PollOne(schedule: WaitSchedule, active: set<string>, now: real) returns (job: seq<Job>)
    requires schedule.View().Valid()
    modifies schedule
    ensures schedule.View() == Next(old(schedule.View()), now, Cooling(active))
    ensures job == JobOf(old(schedule.View()), TickFor(old(schedule.View()), now, Cooling(active)))
  {
    job := [];
    if schedule.nextDue > now || |schedule.batches| == 0 {
      return;
    }
    schedule.nextDue := now + schedule.spacing;
    if CooldownKey(schedule.provider) in active {
      return;
    }
    var batch := schedule.batches[schedule.nextBatch];
    schedule.nextBatch := (schedule.nextBatch + 1) % |schedule.batches|;
    job := [Job(schedule.provider, batch)];
  }

  // The schedules as they are, in the given state each.
  ghost predicate Stand(schedules: seq<WaitSchedule>, views: seq<Schedule>)
    reads schedules
  {
    |schedules| == |views| && forall i :: 0 <= i < |schedules| ==> schedules[i].View() == views[i]
  }

  function NextAll(views: seq<Schedule>, now: real, cooling: Provider -> bool): seq<Schedule> {
    seq(|views|, i requires 0 <= i < |views| => Next(views[i], now, cooling))
  }

  lemma NextAllValid(views: seq<Schedule>, now: real, cooling: Provider -> bool)
    requires forall i :: 0 <= i < |views| ==> views[i].Valid()
    ensures forall i :: 0 <= i < |views| ==> NextAll(views, now, cooling)[i].Valid()
  {
    forall i | 0 <= i < |views| ensures Next(views[i], now, cooling).Valid() {
      PolledValid(views[i], TickFor(views[i], now, cooling));
    }
  }

  lemma JobsOfNext(views: seq<Schedule>, i: nat, now: real, cooling: Provider -> bool)
    requires i < |views|
    ensures Jobs(views[..i + 1], now, cooling)
            == Jobs(views[..i], now, cooling) + JobOf(views[i], TickFor(views[i], now, cooling))
  {
    assert views[..i + 1][..i] == views[..i];
  }

  method PollDueWaitBatches(schedules: seq<WaitSchedule>, ghost views: seq<Schedule>, active: set<string>, now: real)
    returns (jobs: seq<Job>)
    requires Distinct(schedules) && Stand(schedules, views)
    requires forall i :: 0 <= i < |views| ==> views[i].Valid()
    modifies schedules
    ensures Stand(schedules, NextAll(views, now, Cooling(active)))
    ensures forall i :: 0 <= i < |views| ==> NextAll(views, now, Cooling(active))[i].Valid()
    ensures jobs == Jobs(views, now, Cooling(active))
  {
    jobs := [];
    ghost var cooling := Cooling(active);
    ghost var after := NextAll(views, now, cooling);
    for i := 0 to |schedules|
      invariant forall j :: 0 <= j < |schedules| ==> schedules[j].View() == if j < i then after[j] else views[j]
      invariant jobs == Jobs(views[..i], now, cooling)
    {
      JobsOfNext(views, i, now, cooling);
      label Before:
      var job := PollOne(schedules[i], active, now);
      forall j | 0 <= j < |schedules| && j != i ensures schedules[j].View() == old@Before(schedules[j].View()) {
        assert schedules[j] != schedules[i];
      }
      assert after[i] == Next(views[i], now, cooling);
      jobs := jobs + job;
    }
    assert views[..|schedules|] == views;
    NextAllValid(views, now, cooling);
  }

  // ---- Runs of ticks between two loads

  function Dispatches(s: Schedule, ticks: seq<Tick>): seq<Dispatch>
    decreases |ticks|
  {
    if ticks == [] then [] else
      var rest := Dispatches(Polled(s, ticks[0]), ticks[1..]);
      if Sends(s, ticks[0]) then [Dispatch(ticks[0].now, s.nextBatch)] + rest else rest
  }

  // The first dispatch is not before the due time, and each keeps its distance from the one before.
  ghost predicate Spaced(ds: seq<Dispatch>, from: real, spacing: real) {
    && (ds != [] ==> ds[0].at >= from)
    && (forall i :: 0 < i < |ds| ==> ds[i].at >= ds[i - 1].at + spacing)
  }

  lemma {:induction false} DispatchesSpaced(s: Schedule, ticks: seq<Tick>)
    requires s.Valid()
    ensures Spaced(Dispatches(s, ticks), s.nextDue, s.spacing)
    decreases |ticks|
  {
    if ticks != [] {
      var t, next := ticks[0], Polled(s, ticks[0]);
      DispatchesSpaced(next, ticks[1..]);
      var rest := Dispatches(next, ticks[1..]);
      if Sends(s, t) {
        var ds := [Dispatch(t.now, s.nextBatch)] + rest;
        assert forall i :: 0 < i < |ds| ==> ds[i] == rest[i - 1];
      }
    }
  }

  lemma {:induction false} SpacedApart(ds: seq<Dispatch>, from: real, spacing: real, i: nat, j: nat)
    requires Spaced(ds, from, spacing) && i <= j < |ds|
    ensures ds[j].at >= ds[i].at + Times(j - i, spacing)
    decreases j
  {
    if i < j {
      SpacedApart(ds, from, spacing, i, j - 1);
    }
  }

  // A tick that finds the schedule due, whether it sends or skips for a cooldown, holds the provider back
  // for a full spacing.
  lemma DueTickPostpones(s: Schedule, tick: Tick, ticks: seq<Tick>)
    requires s.Valid() && s.nextDue <= tick.now
    ensures forall d :: d in Dispatches(Polled(s, tick), ticks) ==> d.at >= tick.now + s.spacing
  {
    var next := Polled(s, tick);
    PolledValid(s, tick);
    DispatchesSpaced(next, ticks);
    var ds := Dispatches(next, ticks);
    forall d | d in ds ensures d.at >= tick.now + s.spacing {
      var i :| 0 <= i < |ds| && ds[i] == d;
      SpacedApart(ds, next.nextDue, next.spacing, 0, i);
      TimesOrder(0, i, next.spacing);
    }
  }

  // Any two dispatches are as many spacings apart as they are dispatches apart: whatever the ticks and
  // cooldowns.
  lemma DispatchesPaced(s: Schedule, ticks: seq<Tick>, i: nat, j: nat)
    requires s.Valid() && i <= j < |Dispatches(s, ticks)|
    ensures Dispatches(s, ticks)[0].at >= s.nextDue
    ensures Dispatches(s, ticks)[j].at >= Dispatches(s, ticks)[i].at + Times(j - i, s.spacing)
  {
    DispatchesSpaced(s, ticks);
    SpacedApart(Dispatches(s, ticks), s.nextDue, s.spacing, i, j);
  }

  // k times the spacing.
  function Times(k: nat, spacing: real): real {
    if k == 0 then 0.0 else Times(k - 1, spacing) + spacing
  }

  lemma {:induction false} TimesIsProduct(k: nat, spacing: real)
    ensures Times(k, spacing) == k as real * spacing
  {
    if k > 0 {
      TimesIsProduct(k - 1, spacing);
      var a := (k - 1) as real;
      assert k as real == a + 1.0;
      assert (a + 1.0) * spacing == a * spacing + spacing;
    }
  }

  lemma {:induction false} TimesOrder(k: nat, l: nat, spacing: real)
    requires k <= l && spacing >= 0.0
    ensures Times(k, spacing) <= Times(l, spacing)
    decreases l
  {
    if k < l {
      TimesOrder(k, l - 1, spacing);
    }
  }

  ghost function InWindow(ds: seq<Dispatch>, start: real, length: real): set<nat> {
    set i: nat | i < |ds| && start <= ds[i].at < start + length
  }

  // A half-open window of k spacings holds at most k dispatches.
  lemma AtMostPerWindow(s: Schedule, ticks: seq<Tick>, start: real, k: nat)
    requires s.Valid()
    ensures |InWindow(Dispatches(s, ticks), start, Times(k, s.spacing))| <= k
  {
    var ds := Dispatches(s, ticks);
    var w := InWindow(ds, start, Times(k, s.spacing));
    DispatchesSpaced(s, ticks);
    if w != {} {
      var low, high := Extremes(w);
      SpanInWindow(s, ds, k, low, high);
      SizeOfRange(w, low, high);
    }
  }

  // Two dispatches closer than k spacings are fewer than k apart.
  lemma SpanInWindow(s: Schedule, ds: seq<Dispatch>, k: nat, low: nat, high: nat)
    requires s.Valid() && low <= high < |ds| && Spaced(ds, s.nextDue, s.spacing)
    requires ds[high].at < ds[low].at + Times(k, s.spacing)
    ensures high - low < k
  {
    SpacedApart(ds, s.nextDue, s.spacing, low, high);
    assert Times(high - low, s.spacing) < Times(k, s.spacing);
    if k <= high - low {
      TimesOrder(k, high - low, s.spacing);
    }
  }

  lemma {:induction false} Extremes(w: set<nat>) returns (low: nat, high: nat)
    requires w != {}
    ensures low in w && high in w && forall i :: i in w ==> low <= i <= high
    decreases |w|
  {
    var x :| x in w;
    var rest := w - {x};
    assert |w| == |rest| + 1;
    if rest == {} {
      low, high := x, x;
      assert w == {x};
    } else {
      low, high := Extremes(rest);
      low, high := if x < low then x else low, if x > high then x else high;
      assert forall i :: i in w ==> i == x || i in rest;
    }
  }

  lemma {:induction false} SizeOfRange(w: set<nat>, low: nat, high: nat)
    requires forall i :: i in w ==> low <= i <= high
    requires low <= high
    ensures |w| <= high - low + 1
    decreases high - low
  {
    var rest := w - {high};
    if low == high {
      assert rest == {};
    } else {
      SizeOfRange(rest, low, high - 1);
    }
    assert w <= rest + {high};
    SubsetSize(w, rest + {high});
  }

  lemma MinuteOfSpacings(maxPerMinute: nat)
    ensures Times(PerMinute(maxPerMinute), Spacing(maxPerMinute)) == 60.0
  {
    TimesIsProduct(PerMinute(maxPerMinute), Spacing(maxPerMinute));
  }

  // In any minute a provider gets at most the configured number of requests.
  lemma AtMostPerMinute(s: Schedule, ticks: seq<Tick>, start: real, maxPerMinute: nat)
    requires s.Valid() && s.spacing == Spacing(maxPerMinute)
    ensures |InWindow(Dispatches(s, ticks), start, 60.0)| <= if maxPerMinute == 0 then 1 else maxPerMinute
  {
    MinuteOfSpacings(maxPerMinute);
    AtMostPerWindow(s, ticks, start, PerMinute(maxPerMinute));
  }

  // ---- Turns

  // x modulo n.
  function Turn(x: nat, n: nat): (turn: nat)
    requires n > 0
    ensures turn < n
  {
    if x < n then x else Turn(x - n, n)
  }

  lemma {:induction false} TurnNext(x: nat, n: nat)
    requires n > 0
    ensures Turn(x + 1, n) == (Turn(x, n) + 1) % n
    ensures Turn(x + 1, n) == if Turn(x, n) + 1 == n then 0 else Turn(x, n) + 1
  {
    if x >= n {
      TurnNext(x - n, n);
    }
    Remainder(Turn(x, n), n);
  }

  lemma Remainder(x: nat, n: nat)
    requires x < n
    ensures (x + 1) % n == if x + 1 == n then 0 else x + 1
  {
    if x + 1 == n {
      assert n % n == 0;
    } else {
      assert (x + 1) / n == 0;
    }
  }

  lemma {:induction false} TurnShift(x: nat, y: nat, n: nat)
    requires n > 0
    ensures Turn(Turn(x, n) + y, n) == Turn(x + y, n)
  {
    if x >= n {
      TurnShift(x - n, y, n);
    }
  }

  lemma {:induction false} BackToZero(x: nat, n: nat)
    requires n > 0
    ensures Turn(x + (n - Turn(x, n)), n) == 0
  {
    if x >= n {
      BackToZero(x - n, n);
    }
  }

  // Batches are sent in turn; ticks that are not due and ticks in cooldown skip none.
  lemma {:induction false} RoundRobin(s: Schedule, ticks: seq<Tick>, i: nat)
    requires s.Valid() && i < |Dispatches(s, ticks)|
    ensures Dispatches(s, ticks)[i].batch == Turn(s.nextBatch + i, |s.batches|)
    decreases |ticks|
  {
    var next, n := Polled(s, ticks[0]), |s.batches|;
    if Sends(s, ticks[0]) {
      if i > 0 {
        RoundRobin(next, ticks[1..], i - 1);
        TurnNext(s.nextBatch, n);
        TurnShift(s.nextBatch + 1, i - 1, n);
      }
    } else {
      RoundRobin(next, ticks[1..], i);
    }
  }

  // The shops that dispatches from..from + count ask for.
  function Requested(s: Schedule, ds: seq<Dispatch>, from: nat, count: nat): seq<int>
    requires from + count <= |ds|
    requires forall d :: d in ds ==> d.batch < |s.batches|
    decreases count
  {
    if count == 0 then [] else s.batches[ds[from].batch] + Requested(s, ds, from + 1, count - 1)
  }

  lemma {:induction false} DispatchesInRange(s: Schedule, ticks: seq<Tick>)
    requires s.Valid()
    ensures forall d :: d in Dispatches(s, ticks) ==> d.batch < |s.batches|
  {
    var ds := Dispatches(s, ticks);
    forall d | d in ds ensures d.batch < |s.batches| {
      var i :| 0 <= i < |ds| && ds[i] == d;
      RoundRobin(s, ticks, i);
    }
  }

  // Batches taken in turn from `turn` are a stretch of the batches, up to the last.
  lemma {:induction false} RequestedStretch(s: Schedule, ticks: seq<Tick>, from: nat, turn: nat, count: nat)
    requires s.Valid() && from + count <= |Dispatches(s, ticks)| && turn + count <= |s.batches|
    requires count > 0 ==> turn == Turn(s.nextBatch + from, |s.batches|)
    requires forall d :: d in Dispatches(s, ticks) ==> d.batch < |s.batches|
    ensures Requested(s, Dispatches(s, ticks), from, count) == Flatten(s.batches[turn..turn + count])
    decreases count
  {
    if count > 0 {
      RoundRobin(s, ticks, from);
      TurnNext(s.nextBatch + from, |s.batches|);
      RequestedStretch(s, ticks, from + 1, turn + 1, count - 1);
      var part := s.batches[turn..turn + count];
      assert part[0] == s.batches[turn] && part[1..] == s.batches[turn + 1..turn + count];
    }
  }

  lemma {:induction false} RequestedConcat(s: Schedule, ds: seq<Dispatch>, from: nat, a: nat, b: nat)
    requires from + a + b <= |ds|
    requires forall d :: d in ds ==> d.batch < |s.batches|
    ensures Requested(s, ds, from, a + b) == Requested(s, ds, from, a) + Requested(s, ds, from + a, b)
    decreases a
  {
    if a > 0 {
      RequestedConcat(s, ds, from + 1, a - 1, b);
      var head, x, y := s.batches[ds[from].batch], Requested(s, ds, from + 1, a - 1), Requested(s, ds, from + a, b);
      Associative(head, x, y);
    }
  }

  lemma {:induction false} FlattenConcat(a: seq<seq<int>>, b: seq<seq<int>>)
    ensures Flatten(a + b) == Flatten(a) + Flatten(b)
  {
    if a == [] {
      assert a + b == b;
    } else {
      FlattenConcat(a[1..], b);
      assert (a + b)[0] == a[0] && (a + b)[1..] == a[1..] + b;
      Associative(a[0], Flatten(a[1..]), Flatten(b));
    }
  }

  // |batches| dispatches in a row take the batches from the next turn to the last, then from the first.
  lemma RequestedRound(s: Schedule, ticks: seq<Tick>, from: nat, turn: nat)
    requires s.Valid() && from + |s.batches| <= |Dispatches(s, ticks)|
    requires forall d :: d in Dispatches(s, ticks) ==> d.batch < |s.batches|
    requires turn == Turn(s.nextBatch + from, |s.batches|)
    ensures Requested(s, Dispatches(s, ticks), from, |s.batches|)
            == Flatten(s.batches[turn..]) + Flatten(s.batches[..turn])
  {
    var a := |s.batches| - turn;
    RequestedConcat(s, Dispatches(s, ticks), from, a, turn);
    RequestedToEnd(s, ticks, from, turn);
    BackToZero(s.nextBatch + from, |s.batches|);
    assert s.nextBatch + from + a == s.nextBatch + (from + a);
    RequestedStretch(s, ticks, from + a, 0, turn);
    assert s.batches[0..turn] == s.batches[..turn];
  }

  lemma RequestedToEnd(s: Schedule, ticks: seq<Tick>, from: nat, turn: nat)
    requires s.Valid() && turn <= |s.batches| && from + |s.batches| - turn <= |Dispatches(s, ticks)|
    requires forall d :: d in Dispatches(s, ticks) ==> d.batch < |s.batches|
    requires turn == Turn(s.nextBatch + from, |s.batches|)
    ensures Requested(s, Dispatches(s, ticks), from, |s.batches| - turn) == Flatten(s.batches[turn..])
  {
    RequestedStretch(s, ticks, from, turn, |s.batches| - turn);
    assert s.batches[turn..turn + (|s.batches| - turn)] == s.batches[turn..];
  }

  // Any |batches| dispatches in a row ask for each shop of the provider exactly once.
  lemma EachShopOnce(s: Schedule, ticks: seq<Tick>, from: nat)
    requires s.Valid() && from + |s.batches| <= |Dispatches(s, ticks)|
    ensures forall d :: d in Dispatches(s, ticks) ==> d.batch < |s.batches|
    ensures multiset(Requested(s, Dispatches(s, ticks), from, |s.batches|)) == multiset(Flatten(s.batches))
  {
    DispatchesInRange(s, ticks);
    var turn := Turn(s.nextBatch + from, |s.batches|);
    RequestedRound(s, ticks, from, turn);
    var left, right := s.batches[..turn], s.batches[turn..];
    assert s.batches == left + right;
    FlattenConcat(left, right);
  }

  // ---- Freshness

  // Ticks without cooldown, at most d apart.
  ghost predicate Steady(ticks: seq<Tick>, d: real) {
    && (forall t :: t in ticks ==> !t.cooling)
    && (forall i :: 0 <= i < |ticks| - 1 ==> ticks[i].now <= ticks[i + 1].now <= ticks[i].now + d)
  }

  function LastTime(ticks: seq<Tick>): real
    requires ticks != []
  {
    ticks[|ticks| - 1].now
  }

  lemma SteadyTail(ticks: seq<Tick>, d: real)
    requires ticks != [] && Steady(ticks, d)
    ensures Steady(ticks[1..], d)
  {
    var rest := ticks[1..];
    assert forall i :: 0 <= i < |rest| ==> rest[i] == ticks[i + 1];
  }

  // Dispatch m comes within m rounds of one spacing and one tick after the first is due.
  lemma {:induction false} ServedWithin(s: Schedule, ticks: seq<Tick>, d: real, m: nat)
    requires s.Valid() && d >= 0.0 && ticks != [] && Steady(ticks, d)
    requires ticks[0].now <= s.nextDue + d
    requires LastTime(ticks) >= s.nextDue + Times(m, s.spacing + d)
    ensures m < |Dispatches(s, ticks)|
    ensures Dispatches(s, ticks)[m].at <= s.nextDue + d + Times(m, s.spacing + d)
    decreases |ticks|
  {
    var t, rest, next := ticks[0], ticks[1..], Polled(s, ticks[0]);
    assert t in ticks;
    TimesOrder(0, m, s.spacing + d);
    SteadyTail(ticks, d);
    if Sends(s, t) {
      if m > 0 {
        TimesOrder(0, m - 1, s.spacing + d);
        ServedWithin(next, rest, d, m - 1);
      }
    } else {
      ServedWithin(s, rest, d, m);
    }
  }

  // Once sent at time T, a batch is sent again by T + |batches| * (spacing + d), if the run lasts as long.
  lemma {:induction false} SentAgain(s: Schedule, ticks: seq<Tick>, d: real, i: nat)
    requires s.Valid() && d >= 0.0 && Steady(ticks, d) && i < |Dispatches(s, ticks)|
    requires ticks != [] && LastTime(ticks) >= Dispatches(s, ticks)[i].at + Times(|s.batches|, s.spacing + d)
    ensures var ds, n := Dispatches(s, ticks), |s.batches|;
            && i + n < |ds|
            && ds[i + n].batch == ds[i].batch
            && ds[i + n].at <= ds[i].at + Times(n, s.spacing + d)
    decreases |ticks|
  {
    var t, rest, next, n := ticks[0], ticks[1..], Polled(s, ticks[0]), |s.batches|;
    SteadyTail(ticks, d);
    TimesOrder(1, n, s.spacing + d);
    if Sends(s, t) {
      if i == 0 {
        TimesOrder(0, n - 1, s.spacing + d);
        ServedWithin(next, rest, d, n - 1);
      } else {
        SentAgain(next, rest, d, i - 1);
      }
    } else {
      SentAgain(next, rest, d, i);
    }
    RoundRobin(s, ticks, i);
    RoundRobin(s, ticks, i + n);
  }

  // ---- Reloads

  // The first request of a run keeps its distance from a request made before.
  ghost predicate KeepsDistance(last: real, s: Schedule, ticks: seq<Tick>) {
    Dispatches(s, ticks) != [] ==> Dispatches(s, ticks)[0].at >= last + s.spacing
  }

  // A reload forgets when the provider was last asked. From then on the first request keeps its distance
  // from the last one, for every sequence of ticks, exactly when the new due time does.
  lemma ReloadPacedIff(last: real, reloaded: Schedule)
    requires reloaded.Valid()
    ensures (forall ticks :: KeepsDistance(last, reloaded, ticks)) <==> reloaded.nextDue >= last + reloaded.spacing
  {
    var early := [Tick(reloaded.nextDue, false)];
    assert Dispatches(reloaded, early) == [Dispatch(reloaded.nextDue, reloaded.nextBatch)];
    assert KeepsDistance(last, reloaded, early) <==> reloaded.nextDue >= last + reloaded.spacing;
    forall ticks ensures Dispatches(reloaded, ticks) != [] ==> Dispatches(reloaded, ticks)[0].at >= reloaded.nextDue {
      DispatchesSpaced(reloaded, ticks);
    }
  }

  // At six requests a minute, a provider asked at time 0 and loaded anew one second later, as the first
  // group, is asked again at once.
  lemma ReloadBreaksPacing(shops: seq<Shop>, p: Provider)
    requires IdsOf(shops, p) != []
    ensures var reloaded := Loaded(shops, p, 6, 1.0, 0, 1);
            && reloaded.spacing == 10.0
            && Dispatches(reloaded, [Tick(1.0, false)]) == [Dispatch(1.0, 0)]
            && !KeepsDistance(0.0, reloaded, [Tick(1.0, false)])
  {
    LoadedIsValid(shops, p, 6, 1.0, 0, 1);
    assert Stagger(Spacing(6), 0, 1) == 0.0;
    assert PerMinute(6) == 6;
  }
}
