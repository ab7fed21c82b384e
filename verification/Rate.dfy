/** How often a provider is asked over every run of the poller, loads included. */
module Rate {
  import opened Wrappers
  import opened Sequences
  import opened WaitSchedule
  import opened Pacing
  import opened Cooldown

  // A request to a provider: when, and how many loads of the run had replaced schedules before it.
  datatype Request = Request(at: real, loads: nat)

  function JobsFor(schedules: seq<Schedule>, now: real, cooling: Provider -> bool, p: Provider): seq<Job> {
    Select(Jobs(schedules, now, cooling), (job: Job) => job.provider == p)
  }

  function Repeated(jobs: seq<Job>, r: Request): seq<Request> {
    if jobs == [] then [] else [r] + Repeated(jobs[1..], r)
  }

  // The requests of one event to p.
  function RequestsOf(st: State, e: Event, p: Provider, loads: nat): seq<Request> {
    match e
    case Poll(query, now, _, _) =>
      Repeated(JobsFor(st.schedules, now, CoolingAt(st.cooldowns, query), p), Request(now, loads))
    case _ => []
  }

  predicate Replaces(st: State, e: Event) {
    e.Load? && st.schedules != []
  }

  function LoadsAfter(st: State, e: Event, loads: nat): nat {
    if Replaces(st, e) then loads + 1 else loads
  }

  // Every request of a run to p.
  function Requests(st: State, events: seq<Event>, duration: nat, p: Provider, loads: nat): seq<Request>
    decreases |events|
  {
    if events == [] then [] else
      RequestsOf(st, events[0], p, loads)
      + Requests(Step(st, events[0], duration), events[1..], duration, p, LoadsAfter(st, events[0], loads))
  }

  // Schedules as a load leaves them: one to a provider, all with the configured spacing.
  ghost predicate Paced(schedules: seq<Schedule>, spacing: real) {
    && (forall s :: s in schedules ==> s.Valid() && s.spacing == spacing)
    && (forall i, j :: 0 <= i < j < |schedules| ==> schedules[i].provider != schedules[j].provider)
  }

  // The poller's clock never runs backwards, and loads are paced.
  ghost predicate PlausibleEvent(e: Event, clock: real, spacing: real) {
    match e
    case Poll(_, now, _, _) => clock <= now
    case Record(_, _) => true
    case Load(at, schedules) => clock <= at && Paced(schedules, spacing)
  }

  function ClockAfter(e: Event, clock: real): real {
    match e
    case Poll(_, now, _, _) => now
    case Record(_, _) => clock
    case Load(at, _) => at
  }

  ghost predicate Plausible(events: seq<Event>, clock: real, spacing: real)
    decreases |events|
  {
    events == []
    || (PlausibleEvent(events[0], clock, spacing) && Plausible(events[1..], ClockAfter(events[0], clock), spacing))
  }

  function Due(schedules: seq<Schedule>, p: Provider): Option<real> {
    if schedules == [] then None else
      var n := |schedules| - 1;
      if schedules[n].provider == p then Some(schedules[n].nextDue) else Due(schedules[..n], p)
  }

  // A poll of the schedules is a poll of all but the last, and one of the last.
  lemma PollOfLast(schedules: seq<Schedule>, now: real, cooling: Provider -> bool, p: Provider)
    requires schedules != []
    ensures var n := |schedules| - 1;
            var last, tick := schedules[n], TickFor(schedules[n], now, cooling);
            var jobs, before := JobsFor(schedules, now, cooling, p), JobsFor(schedules[..n], now, cooling, p);
            var after := NextAll(schedules, now, cooling);
            && (last.provider == p ==>
                  jobs == before + JobOf(last, tick) && Due(after, p) == Some(Polled(last, tick).nextDue))
            && (last.provider != p ==> jobs == before && Due(after, p) == Due(NextAll(schedules[..n], now, cooling), p))
  {
    var n := |schedules| - 1;
    SelectConcat(Jobs(schedules[..n], now, cooling), JobOf(schedules[n], TickFor(schedules[n], now, cooling)),
                 (job: Job) => job.provider == p);
    var after := NextAll(schedules, now, cooling);
    assert after[..n] == NextAll(schedules[..n], now, cooling);
    assert after[n] == Next(schedules[n], now, cooling) && after[n].provider == schedules[n].provider;
  }

  lemma {:induction false} NoScheduleNoJob(schedules: seq<Schedule>, now: real, cooling: Provider -> bool, p: Provider)
    requires forall i :: 0 <= i < |schedules| ==> schedules[i].provider != p
    ensures JobsFor(schedules, now, cooling, p) == []
    ensures Due(schedules, p) == None && Due(NextAll(schedules, now, cooling), p) == None
  {
    if schedules != [] {
      NoScheduleNoJob(schedules[..|schedules| - 1], now, cooling, p);
      PollOfLast(schedules, now, cooling, p);
    }
  }

  lemma PollOfSchedule(s: Schedule, tick: Tick)
    requires s.Valid()
    ensures |JobOf(s, tick)| <= 1
    ensures JobOf(s, tick) != [] ==> s.nextDue <= tick.now && Polled(s, tick).nextDue == tick.now + s.spacing
    ensures Polled(s, tick).nextDue >= s.nextDue
  {
  }

  lemma PacedFront(schedules: seq<Schedule>, spacing: real)
    requires schedules != [] && Paced(schedules, spacing)
    ensures var n := |schedules| - 1;
            && Paced(schedules[..n], spacing)
            && schedules[n].Valid() && schedules[n].spacing == spacing
            && forall i :: 0 <= i < n ==> schedules[..n][i].provider != schedules[n].provider
  {
    var n := |schedules| - 1;
    assert schedules[n] in schedules;
    assert forall s :: s in schedules[..n] ==> s in schedules;
  }

  ghost predicate Postponed(jobs: seq<Job>, due: Option<real>, after: Option<real>, now: real, spacing: real) {
    && |jobs| <= 1
    && (jobs != [] ==> due.Some? && due.value <= now && after == Some(now + spacing))
    && (due.None? ==> after.None?)
    && (due.Some? ==> after.Some? && after.value >= due.value)
  }

  // A poll sends at most one batch to p, not before p is due, and then p is due a spacing later.
  lemma {:induction false} PollOfProvider(schedules: seq<Schedule>, now: real, cooling: Provider -> bool,
      p: Provider, spacing: real)
    requires Paced(schedules, spacing)
    ensures Postponed(JobsFor(schedules, now, cooling, p), Due(schedules, p),
                      Due(NextAll(schedules, now, cooling), p), now, spacing)
  {
    if schedules == [] {
      assert NextAll(schedules, now, cooling) == [];
    } else {
      var n := |schedules| - 1;
      var last := schedules[n];
      PacedFront(schedules, spacing);
      PollOfLast(schedules, now, cooling, p);
      if last.provider == p {
        NoScheduleNoJob(schedules[..n], now, cooling, p);
        PollOfSchedule(last, TickFor(last, now, cooling));
      } else {
        PollOfProvider(schedules[..n], now, cooling, p, spacing);
      }
    }
  }

  lemma PacedStays(schedules: seq<Schedule>, now: real, cooling: Provider -> bool, spacing: real)
    requires Paced(schedules, spacing)
    ensures Paced(NextAll(schedules, now, cooling), spacing)
  {
    forall i | 0 <= i < |schedules|
      ensures var s := NextAll(schedules, now, cooling)[i];
              s.Valid() && s.spacing == spacing && s.provider == schedules[i].provider
    {
      assert schedules[i] in schedules;
      PolledValid(schedules[i], TickFor(schedules[i], now, cooling));
    }
  }

  // When p may be asked next; without any schedules nothing is known of that.
  function DueFrom(schedules: seq<Schedule>, p: Provider, clock: real): Option<real> {
    if schedules == [] then Some(clock) else Due(schedules, p)
  }

  // What a run's requests look like from a state on: none before the clock; none under the present load
  // before p is due; and two in a row under one load a spacing apart.
  ghost predicate InStep(rs: seq<Request>, clock: real, due: Option<real>, loads: nat, spacing: real) {
    && (rs != [] ==> rs[0].at >= clock && rs[0].loads >= loads)
    && (rs != [] && rs[0].loads == loads ==> due.Some? && rs[0].at >= due.value)
    && (forall i :: 0 < i < |rs| ==>
          && rs[i - 1].loads <= rs[i].loads
          && rs[i].at >= rs[i - 1].at + if rs[i - 1].loads == rs[i].loads then spacing else 0.0)
  }

  lemma InStepAfterRequest(rs: seq<Request>, now: real, loads: nat, spacing: real)
    requires InStep(rs, now, Some(now + spacing), loads, spacing)
    ensures InStep([Request(now, loads)] + rs, now, Some(now), loads, spacing)
  {
    var all := [Request(now, loads)] + rs;
    forall i | 0 < i < |all|
      ensures all[i - 1].loads <= all[i].loads
      ensures all[i].at >= all[i - 1].at + if all[i - 1].loads == all[i].loads then spacing else 0.0
    {
      assert all[i] == rs[i - 1] && (i > 1 ==> all[i - 1] == rs[i - 2]);
    }
  }

  lemma StepPaced(st: State, e: Event, duration: nat, clock: real, spacing: real)
    requires Paced(st.schedules, spacing) && PlausibleEvent(e, clock, spacing)
    ensures Paced(Step(st, e, duration).schedules, spacing)
  {
    if e.Poll? {
      PacedStays(st.schedules, e.now, CoolingAt(st.cooldowns, e.query), spacing);
    }
  }

  lemma InStepEarlier(rs: seq<Request>, clock: real, due: real, clock': real, due': real, loads: nat, spacing: real)
    requires InStep(rs, clock, Some(due), loads, spacing) && clock' <= clock && due' <= due
    ensures InStep(rs, clock', Some(due'), loads, spacing)
  {
  }

  lemma PollInStep(jobs: seq<Job>, due: Option<real>, after: Option<real>, now: real, clock: real, loads: nat,
      spacing: real,
                   rest: seq<Request>)
    requires Postponed(jobs, due, after, now, spacing) && clock <= now
    requires InStep(rest, now, after, loads, spacing)
    ensures InStep(Repeated(jobs, Request(now, loads)) + rest, clock, due, loads, spacing)
  {
    if jobs == [] {
      assert Repeated(jobs, Request(now, loads)) + rest == rest;
    } else {
      var r := Request(now, loads);
      assert Repeated(jobs, r) == [r] by {
        assert jobs[1..] == [] && Repeated(jobs[1..], r) == [];
      }
      InStepAfterRequest(rest, now, loads, spacing);
      InStepEarlier([r] + rest, now, now, clock, due.value, loads, spacing);
    }
  }

  // A load that replaces schedules starts a new count; one that finds none starts afresh.
  lemma LoadInStep(rs: seq<Request>, at: real, due: Option<real>, clock: real, before: Option<real>, loads: nat,
      spacing: real)
    requires clock <= at
    ensures InStep(rs, at, due, loads + 1, spacing) ==> InStep(rs, clock, before, loads, spacing)
    ensures InStep(rs, at, due, loads, spacing) ==> InStep(rs, clock, Some(clock), loads, spacing)
  {
  }

  // An event's own requests go before those of the rest of the run.
  lemma StepInStep(st: State, e: Event, duration: nat, p: Provider, loads: nat, clock: real, spacing: real,
      rest: seq<Request>)
    requires Paced(st.schedules, spacing) && PlausibleEvent(e, clock, spacing)
    requires InStep(rest, ClockAfter(e, clock), DueFrom(Step(st, e, duration).schedules, p, ClockAfter(e, clock)),
                    LoadsAfter(st, e, loads), spacing)
    ensures InStep(RequestsOf(st, e, p, loads) + rest, clock, DueFrom(st.schedules, p, clock), loads, spacing)
  {
    if e.Poll? {
      var cooling := CoolingAt(st.cooldowns, e.query);
      PollOfProvider(st.schedules, e.now, cooling, p, spacing);
      var after := NextAll(st.schedules, e.now, cooling);
      var jobs := JobsFor(st.schedules, e.now, cooling, p);
      if st.schedules == [] {
        assert after == [] && jobs == [];
        assert RequestsOf(st, e, p, loads) + rest == rest;
        LoadInStep(rest, e.now, Some(e.now), clock, None, loads, spacing);
      } else {
        assert |after| == |st.schedules|;
        PollInStep(jobs, Due(st.schedules, p), Due(after, p), e.now, clock, loads, spacing, rest);
      }
    } else {
      assert RequestsOf(st, e, p, loads) + rest == rest;
      if e.Load? {
        LoadInStep(rest, e.at, DueFrom(e.schedules, p, e.at), clock, Due(st.schedules, p), loads, spacing);
      }
    }
  }

  lemma {:induction false} RequestsInStep(st: State, events: seq<Event>, duration: nat, p: Provider, loads: nat,
                                          clock: real, spacing: real)
    requires Paced(st.schedules, spacing) && Plausible(events, clock, spacing)
    ensures InStep(Requests(st, events, duration, p, loads), clock, DueFrom(st.schedules, p, clock), loads, spacing)
    decreases |events|
  {
    if events != [] {
      var e, rest := events[0], events[1..];
      var next, after := Step(st, e, duration), LoadsAfter(st, e, loads);
      StepPaced(st, e, duration, clock, spacing);
      RequestsInStep(next, rest, duration, p, after, ClockAfter(e, clock), spacing);
      StepInStep(st, e, duration, p, loads, clock, spacing, Requests(next, rest, duration, p, after));
    }
  }

  // Each load on the way from one request to a later one costs at most one spacing.
  lemma {:induction false} ApartButForLoads(rs: seq<Request>, clock: real, due: Option<real>, loads: nat, spacing: real,
                                            i: nat, j: nat)
    requires InStep(rs, clock, due, loads, spacing) && spacing >= 0.0 && i <= j < |rs|
    ensures rs[i].loads <= rs[j].loads && rs[i].at <= rs[j].at
    ensures j - i >= rs[j].loads - rs[i].loads ==>
              rs[j].at >= rs[i].at + Times(j - i - (rs[j].loads - rs[i].loads), spacing)
    decreases j
  {
    if i < j {
      ApartButForLoads(rs, clock, due, loads, spacing, i, j - 1);
      var before := j - 1 - i - (rs[j - 1].loads - rs[i].loads);
      if before >= 0 && j - i >= rs[j].loads - rs[i].loads {
        TimesOrder(j - i - (rs[j].loads - rs[i].loads), before + 1, spacing);
        if rs[j - 1].loads != rs[j].loads {
          TimesOrder(j - i - (rs[j].loads - rs[i].loads), before, spacing);
        }
      }
    }
  }

  ghost function RequestsWithin(rs: seq<Request>, start: real, length: real): set<nat> {
    set i: nat | i < |rs| && start <= rs[i].at < start + length
  }

  // Of k spacings' worth of time, with its first and last request.
  lemma CountInWindow(rs: seq<Request>, clock: real, due: Option<real>, spacing: real, start: real, k: nat)
    returns (low: nat, high: nat)
    requires InStep(rs, clock, due, 0, spacing) && spacing >= 0.0
    requires RequestsWithin(rs, start, Times(k, spacing)) != {}
    ensures var w := RequestsWithin(rs, start, Times(k, spacing));
            && low in w && high in w && (forall i :: i in w ==> low <= i <= high)
            && rs[low].loads <= rs[high].loads
            && |w| <= k + (rs[high].loads - rs[low].loads)
  {
    var w := RequestsWithin(rs, start, Times(k, spacing));
    low, high := Extremes(w);
    ApartButForLoads(rs, clock, due, 0, spacing, low, high);
    SizeOfRange(w, low, high);
    var spaced := high - low - (rs[high].loads - rs[low].loads);
    if spaced >= k {
      TimesOrder(k, spaced, spacing);
      assert false;
    }
  }

  // In every run of the poller (ticks, cooldowns, other records, loads) a provider gets in any minute at
  // most its allowance and one more request for each load between the first and the last of them that
  // replaces schedules.
  lemma RunKeepsRate(st: State, events: seq<Event>, duration: nat, p: Provider, clock: real, start: real,
      maxPerMinute: nat)
    returns (low: nat, high: nat)
    requires Paced(st.schedules, Spacing(maxPerMinute)) && Plausible(events, clock, Spacing(maxPerMinute))
    requires RequestsWithin(Requests(st, events, duration, p, 0), start, 60.0) != {}
    ensures var rs := Requests(st, events, duration, p, 0);
            var w := RequestsWithin(rs, start, 60.0);
            && low in w && high in w && (forall i :: i in w ==> low <= i <= high)
            && rs[low].loads <= rs[high].loads
            && |w| <= PerMinute(maxPerMinute) + (rs[high].loads - rs[low].loads)
  {
    RequestsInStep(st, events, duration, p, 0, clock, Spacing(maxPerMinute));
    MinuteOfSpacings(maxPerMinute);
    low, high := CountInWindow(Requests(st, events, duration, p, 0), clock, DueFrom(st.schedules, p, clock),
                               Spacing(maxPerMinute), start, PerMinute(maxPerMinute));
  }

  // What a load makes of the tracked shops is paced.
  lemma LoadedIsPaced(shops: seq<Shop>, maxPerMinute: nat, now: real)
    ensures Paced(LoadedAll(shops, maxPerMinute, now), Spacing(maxPerMinute))
  {
    LoadedAllValid(shops, maxPerMinute, now);
    AllProviders();
    SelectDistinct(PROVIDERS, p => IdsOf(shops, p) != []);
  }

  // ---- Loads that are far enough apart

  // When the loads of a run replaced schedules.
  function LoadTimes(st: State, events: seq<Event>, duration: nat): seq<real>
    decreases |events|
  {
    if events == [] then [] else
      (if Replaces(st, events[0]) then [events[0].at] else [])
      + LoadTimes(Step(st, events[0], duration), events[1..], duration)
  }

  // A request falls between the loads that its count says.
  ghost predicate Placed(r: Request, times: seq<real>, loads: nat) {
    && loads <= r.loads <= loads + |times|
    && (r.loads < loads + |times| ==> r.at <= times[r.loads - loads])
    && (r.loads > loads ==> times[r.loads - loads - 1] <= r.at)
  }

  ghost predicate Ascending(times: seq<real>, clock: real) {
    && (forall k :: 0 <= k < |times| ==> clock <= times[k])
    && (forall k, l :: 0 <= k <= l < |times| ==> times[k] <= times[l])
  }

  ghost predicate Between(rs: seq<Request>, times: seq<real>, clock: real, loads: nat) {
    && Ascending(times, clock)
    && (forall i :: 0 <= i < |rs| ==> clock <= rs[i].at && Placed(rs[i], times, loads))
  }

  lemma BetweenAfterLoad(rs: seq<Request>, times: seq<real>, at: real, clock: real, loads: nat)
    requires Between(rs, times, at, loads + 1) && clock <= at
    ensures Between(rs, [at] + times, clock, loads)
  {
    var all := [at] + times;
    assert forall k :: 0 < k < |all| ==> all[k] == times[k - 1];
    forall i | 0 <= i < |rs| ensures Placed(rs[i], all, loads) {
      assert Placed(rs[i], times, loads + 1);
    }
  }

  lemma BetweenAfterRequests(rs: seq<Request>, times: seq<real>, now: real, clock: real, loads: nat, jobs: seq<Job>)
    requires Between(rs, times, now, loads) && clock <= now
    ensures Between(Repeated(jobs, Request(now, loads)) + rs, times, clock, loads)
    decreases |jobs|
  {
    var r := Request(now, loads);
    if jobs == [] {
      assert Repeated(jobs, r) + rs == rs;
    } else {
      var more := Repeated(jobs[1..], r) + rs;
      BetweenAfterRequests(rs, times, now, clock, loads, jobs[1..]);
      assert Repeated(jobs, r) + rs == [r] + more;
      assert forall i :: 0 < i < |[r] + more| ==> ([r] + more)[i] == more[i - 1];
      assert Placed(r, times, loads);
    }
  }

  lemma BetweenEarlier(rs: seq<Request>, times: seq<real>, now: real, clock: real, loads: nat)
    requires Between(rs, times, now, loads) && clock <= now
    ensures Between(rs, times, clock, loads)
  {
  }

  lemma StepBetween(st: State, e: Event, duration: nat, p: Provider, loads: nat, clock: real, spacing: real,
                    rs: seq<Request>, times: seq<real>)
    requires PlausibleEvent(e, clock, spacing)
    requires Between(rs, times, ClockAfter(e, clock), LoadsAfter(st, e, loads))
    ensures Between(RequestsOf(st, e, p, loads) + rs, (if Replaces(st, e) then [e.at] else []) + times, clock, loads)
  {
    if e.Poll? {
      BetweenAfterRequests(rs, times, e.now, clock, loads,
                           JobsFor(st.schedules, e.now, CoolingAt(st.cooldowns, e.query), p));
      assert [] + times == times;
    } else {
      assert RequestsOf(st, e, p, loads) + rs == rs;
      if Replaces(st, e) {
        BetweenAfterLoad(rs, times, e.at, clock, loads);
      } else {
        assert [] + times == times;
        BetweenEarlier(rs, times, ClockAfter(e, clock), clock, loads);
      }
    }
  }

  lemma {:induction false} RequestsBetweenLoads(st: State, events: seq<Event>, duration: nat, p: Provider, loads: nat,
                                                clock: real, spacing: real)
    requires Plausible(events, clock, spacing)
    ensures Between(Requests(st, events, duration, p, loads), LoadTimes(st, events, duration), clock, loads)
    decreases |events|
  {
    if events != [] {
      var e, rest := events[0], events[1..];
      var next, after := Step(st, e, duration), LoadsAfter(st, e, loads);
      RequestsBetweenLoads(next, rest, duration, p, after, ClockAfter(e, clock), spacing);
      StepBetween(st, e, duration, p, loads, clock, spacing, Requests(next, rest, duration, p, after),
                  LoadTimes(next, rest, duration));
    }
  }

  // Of any three loads that replace schedules the last comes a gap after the first.
  ghost predicate Spread(times: seq<real>, gap: real) {
    forall k :: 0 <= k && k + 2 < |times| ==> times[k + 2] >= times[k] + gap
  }

  // How many gaps it takes to cover a length of time, in whole seconds.
  function GapsIn(length: nat, gap: nat): (gaps: nat)
    requires gap > 0
    ensures Times(gaps, gap as real) >= length as real
    decreases length
  {
    if length == 0 then 0 else
      var rest := if length <= gap then 0 else length - gap;
      GapsIn(rest, gap) + 1
  }

  // It takes no more gaps than any number of them that covers the length.
  lemma {:induction false} FewestGaps(length: nat, gap: nat, enough: nat)
    requires gap > 0 && enough * gap >= length
    ensures GapsIn(length, gap) <= enough
    decreases length
  {
    if length > 0 {
      assert enough > 0;
      var rest := if length <= gap then 0 else length - gap;
      assert (enough - 1) * gap == enough * gap - gap;
      FewestGaps(rest, gap, enough - 1);
    }
  }

  // If replacing loads are so spread, they cost a provider at most two requests for each gap a minute takes.
  lemma SpreadLoadsKeepRate(st: State, events: seq<Event>, duration: nat, p: Provider, clock: real, start: real,
                            maxPerMinute: nat, gap: nat)
    requires Paced(st.schedules, Spacing(maxPerMinute)) && Plausible(events, clock, Spacing(maxPerMinute))
    requires gap > 0 && Spread(LoadTimes(st, events, duration), gap as real)
    ensures |RequestsWithin(Requests(st, events, duration, p, 0), start, 60.0)|
            <= PerMinute(maxPerMinute) + 2 * GapsIn(60, gap)
  {
    var rs, times := Requests(st, events, duration, p, 0), LoadTimes(st, events, duration);
    if RequestsWithin(rs, start, 60.0) != {} {
      var low, high := RunKeepsRate(st, events, duration, p, clock, start, maxPerMinute);
      RequestsBetweenLoads(st, events, duration, p, 0, clock, Spacing(maxPerMinute));
      LoadsApart(rs, times, clock, low, high, gap as real, GapsIn(60, gap));
    }
  }

  lemma {:induction false} SpreadFar(times: seq<real>, gap: real, k: nat, m: nat)
    requires Spread(times, gap) && k + 2 * m < |times|
    ensures times[k + 2 * m] >= times[k] + Times(m, gap)
    decreases m
  {
    if m > 0 {
      SpreadFar(times, gap, k, m - 1);
      assert times[k + 2 * (m - 1) + 2] >= times[k + 2 * (m - 1)] + gap;
    }
  }

  // Two requests with 2 * m + 1 such loads between them are m gaps apart.
  lemma LoadsApart(rs: seq<Request>, times: seq<real>, clock: real, low: nat, high: nat, gap: real, m: nat)
    requires Between(rs, times, clock, 0) && Spread(times, gap)
    requires low < |rs| && high < |rs|
    ensures rs[high].loads >= rs[low].loads + 2 * m + 1 ==> rs[high].at >= rs[low].at + Times(m, gap)
  {
    assert Placed(rs[low], times, 0) && Placed(rs[high], times, 0);
    if rs[high].loads >= rs[low].loads + 2 * m + 1 {
      SpreadFar(times, gap, rs[low].loads, m);
      assert times[rs[low].loads + 2 * m] <= times[rs[high].loads - 1];
    }
  }

  // ---- The requests as a log of what was sent

  datatype Sent = Sent(at: real, job: Job)

  function Stamped(jobs: seq<Job>, at: real): seq<Sent> {
    if jobs == [] then [] else [Sent(at, jobs[0])] + Stamped(jobs[1..], at)
  }

  function OwnLog(st: State, e: Event): seq<Sent> {
    if e.Poll? then Stamped(JobsOf(st, e), e.now) else []
  }

  // Everything a run sends.
  function LogOf(st: State, events: seq<Event>, duration: nat): seq<Sent>
    decreases |events|
  {
    if events == [] then [] else
      OwnLog(st, events[0]) + LogOf(Step(st, events[0], duration), events[1..], duration)
  }

  // When p was sent something.
  function TimesTo(log: seq<Sent>, p: Provider): seq<real> {
    if log == [] then [] else
      (if log[0].job.provider == p then [log[0].at] else []) + TimesTo(log[1..], p)
  }

  function Ats(rs: seq<Request>): (times: seq<real>)
    ensures |times| == |rs| && forall i :: 0 <= i < |rs| ==> times[i] == rs[i].at
  {
    if rs == [] then [] else [rs[0].at] + Ats(rs[1..])
  }

  lemma AtsConcat(a: seq<Request>, b: seq<Request>)
    ensures Ats(a + b) == Ats(a) + Ats(b)
  {
  }

  ghost function Within(times: seq<real>, start: real, length: real): set<nat> {
    set i: nat | i < |times| && start <= times[i] < start + length
  }

  lemma {:induction false} TimesToConcat(a: seq<Sent>, b: seq<Sent>, p: Provider)
    ensures TimesTo(a + b, p) == TimesTo(a, p) + TimesTo(b, p)
  {
    if a == [] {
      assert a + b == b;
    } else {
      TimesToConcat(a[1..], b, p);
      assert (a + b)[0] == a[0] && (a + b)[1..] == a[1..] + b;
      Associative(if a[0].job.provider == p then [a[0].at] else [], TimesTo(a[1..], p), TimesTo(b, p));
    }
  }

  lemma {:induction false} StampedTimes(jobs: seq<Job>, now: real, loads: nat, p: Provider)
    ensures Ats(Repeated(Select(jobs, (job: Job) => job.provider == p), Request(now, loads)))
            == TimesTo(Stamped(jobs, now), p)
  {
    if jobs != [] {
      var r, rest := Request(now, loads), Select(jobs[1..], (job: Job) => job.provider == p);
      StampedTimes(jobs[1..], now, loads, p);
      assert Stamped(jobs, now)[1..] == Stamped(jobs[1..], now);
      if jobs[0].provider == p {
        assert ([jobs[0]] + rest)[1..] == rest;
        AtsConcat([r], Repeated(rest, r));
      }
    }
  }

  // One event's requests and its part of the log.
  lemma OwnTimes(st: State, e: Event, p: Provider, loads: nat)
    ensures Ats(RequestsOf(st, e, p, loads)) == TimesTo(OwnLog(st, e), p)
  {
    if e.Poll? {
      StampedTimes(JobsOf(st, e), e.now, loads, p);
    }
  }

  // The log and the requests tell of the same times.
  lemma {:induction false} LogIsRequests(st: State, events: seq<Event>, duration: nat, p: Provider, loads: nat)
    ensures Ats(Requests(st, events, duration, p, loads)) == TimesTo(LogOf(st, events, duration), p)
    decreases |events|
  {
    if events != [] {
      var e, next, after := events[0], Step(st, events[0], duration), LoadsAfter(st, events[0], loads);
      LogIsRequests(next, events[1..], duration, p, after);
      OwnTimes(st, e, p, loads);
      TimesToConcat(OwnLog(st, e), LogOf(next, events[1..], duration), p);
      AtsConcat(RequestsOf(st, e, p, loads), Requests(next, events[1..], duration, p, after));
    }
  }

  lemma {:induction false} LogConcat(st: State, a: seq<Event>, b: seq<Event>, duration: nat)
    ensures LogOf(st, a + b, duration) == LogOf(st, a, duration) + LogOf(Run(st, a, duration), b, duration)
    decreases |a|
  {
    if a == [] {
      assert a + b == b;
    } else {
      var next := Step(st, a[0], duration);
      assert (a + b)[0] == a[0] && (a + b)[1..] == a[1..] + b;
      LogConcat(next, a[1..], b, duration);
      Associative(OwnLog(st, a[0]), LogOf(next, a[1..], duration),
                  LogOf(Run(next, a[1..], duration), b, duration));
    }
  }

  // A poll of paced schedules asks p at most once.
  lemma OnePollTimes(st: State, e: Event, p: Provider, spacing: real)
    requires e.Poll? && Paced(st.schedules, spacing)
    ensures TimesTo(OwnLog(st, e), p) == [] || TimesTo(OwnLog(st, e), p) == [e.now]
  {
    var cooling := CoolingAt(st.cooldowns, e.query);
    var jobs := JobsFor(st.schedules, e.now, cooling, p);
    PollOfProvider(st.schedules, e.now, cooling, p, spacing);
    StampedTimes(JobsOf(st, e), e.now, 0, p);
    if jobs != [] {
      assert Repeated(jobs[1..], Request(e.now, 0)) == [];
    }
  }

  lemma {:induction false} EventsStayPaced(st: State, events: seq<Event>, duration: nat, clock: real, spacing: real)
    requires Paced(st.schedules, spacing) && Plausible(events, clock, spacing)
    ensures Paced(Run(st, events, duration).schedules, spacing)
    decreases |events|
  {
    if events != [] {
      StepPaced(st, events[0], duration, clock, spacing);
      EventsStayPaced(Step(st, events[0], duration), events[1..], duration, ClockAfter(events[0], clock), spacing);
    }
  }
}
