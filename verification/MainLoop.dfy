/** The poller's main loop: when it polls the catalog and the notices, and when it loads schedules anew. */
module MainLoop {
  import opened Wrappers
  import opened Sequences
  import opened WaitSchedule
  import opened Pacing
  import opened Cooldown
  import opened Rate

  datatype Config = Config(catalogInterval: nat, retryInterval: nat, noticeInterval: nat, cooldown: nat,
                           maxPerMinute: nat)

  // last_catalog_attempt, last_catalog_success, last_notice_attempt and last_schedule_load
  datatype Timers = Timers(attempt: Option<real>, success: Option<real>, notice: Option<real>, load: Option<real>)

  datatype Recording = Recording(slot: Slot, outcome: Outcome)
  datatype Tracked = Tracked(at: real, shops: seq<Shop>)
  datatype PollInput = PollInput(query: real, now: real, fetch: Job -> Outcome, order: seq<nat>)

  // What one pass of the loop meets: the time it starts, what the catalog poll records and when it comes
  // back successful, the shops a load would read, what a poll of the schedules would meet, and what the
  // notices poll records. None stands for a failure.
  datatype Round = Round(now: real, catalog: seq<Recording>, success: Option<real>, tracked: Option<Tracked>,
                         poll: Option<PollInput>, notices: seq<Recording>)

  datatype Main = Main(timers: Timers, poller: State)

  // TimeDelta::num_seconds
  function NumSeconds(duration: real): int {
    if duration >= 0.0 then duration.Floor else -(-duration).Floor
  }

  predicate Elapsed(last: Option<real>, now: real, interval: nat) {
    last.None? || NumSeconds(now - last.value) >= interval
  }

  predicate PollsCatalog(c: Config, t: Timers, now: real) {
    Elapsed(t.success, now, c.catalogInterval) && Elapsed(t.attempt, now, c.retryInterval)
  }

  predicate PollsNotices(c: Config, t: Timers, now: real) {
    Elapsed(t.notice, now, c.noticeInterval)
  }

  // The timers when the catalog poll, if any, is over; its success asks for new schedules.
  function Attempted(c: Config, t: Timers, r: Round): Timers {
    var polls := PollsCatalog(c, t, r.now);
    var tried := t.(attempt := if polls then Some(r.now) else t.attempt,
                    notice := if PollsNotices(c, t, r.now) then Some(r.now) else t.notice);
    if polls && r.success.Some? then tried.(success := r.success, load := None) else tried
  }

  predicate Loads(c: Config, m: Main, r: Round) {
    (m.poller.schedules == [] || Attempted(c, m.timers, r).load.None?) && r.tracked.Some?
  }

  function Recordings(rs: seq<Recording>): seq<Event> {
    if rs == [] then [] else
      Recordings(rs[..|rs| - 1]) + [Record(rs[|rs| - 1].slot, rs[|rs| - 1].outcome)]
  }

  function CatalogEvents(c: Config, m: Main, r: Round): seq<Event> {
    if PollsCatalog(c, m.timers, r.now) then Recordings(r.catalog) else []
  }

  ghost function LoadEvents(c: Config, m: Main, r: Round): seq<Event> {
    if Loads(c, m, r) then
      [Load(r.tracked.value.at, LoadedAll(r.tracked.value.shops, c.maxPerMinute, r.tracked.value.at))]
    else []
  }

  function PollEvents(r: Round): seq<Event> {
    match r.poll
    case Some(i) => [Poll(i.query, i.now, i.fetch, i.order)]
    case None => []
  }

  function NoticeEvents(c: Config, m: Main, r: Round): seq<Event> {
    if PollsNotices(c, m.timers, r.now) then Recordings(r.notices) else []
  }

  // What a pass does to the machine of cooldowns and schedules.
  ghost function EventsOf(c: Config, m: Main, r: Round): seq<Event> {
    CatalogEvents(c, m, r) + (LoadEvents(c, m, r) + (PollEvents(r) + NoticeEvents(c, m, r)))
  }

  function TimersAfter(c: Config, m: Main, r: Round): Timers {
    var t := Attempted(c, m.timers, r);
    if Loads(c, m, r) then t.(load := Some(r.tracked.value.at)) else t
  }

  ghost function After(c: Config, m: Main, r: Round): Main {
    Main(TimersAfter(c, m, r), Run(m.poller, EventsOf(c, m, r), c.cooldown))
  }

  ghost function EventsOfAll(c: Config, m: Main, rounds: seq<Round>): seq<Event>
    decreases |rounds|
  {
    if rounds == [] then [] else EventsOf(c, m, rounds[0]) + EventsOfAll(c, After(c, m, rounds[0]), rounds[1..])
  }

  // ---- One clock for the whole loop

  function AfterCatalog(r: Round): real {
    if r.success.Some? then r.success.value else r.now
  }

  function AfterLoad(r: Round): real {
    if r.tracked.Some? then r.tracked.value.at else AfterCatalog(r)
  }

  function AfterPoll(r: Round): real {
    if r.poll.Some? then r.poll.value.now else AfterLoad(r)
  }

  predicate InOrder(r: Round, clock: real) {
    clock <= r.now <= AfterCatalog(r) <= AfterLoad(r) <= AfterPoll(r)
  }

  // The sleep at the end of a pass.
  const SLEEP := 1.0

  ghost predicate RunInOrder(rounds: seq<Round>, clock: real)
    decreases |rounds|
  {
    rounds == [] || (InOrder(rounds[0], clock) && RunInOrder(rounds[1..], AfterPoll(rounds[0]) + SLEEP))
  }

  lemma PlausibleEarlier(events: seq<Event>, clock: real, earlier: real, spacing: real)
    requires Plausible(events, clock, spacing) && earlier <= clock
    ensures Plausible(events, earlier, spacing)
    decreases |events|
  {
    if events != [] && events[0].Record? {
      PlausibleEarlier(events[1..], clock, earlier, spacing);
    }
  }

  lemma PlausibleFirst(e: Event, rest: seq<Event>, clock: real, spacing: real)
    requires PlausibleEvent(e, clock, spacing) && Plausible(rest, ClockAfter(e, clock), spacing)
    ensures Plausible([e] + rest, clock, spacing)
  {
    assert ([e] + rest)[1..] == rest;
  }

  lemma {:induction false} PlausibleRecordings(rs: seq<Recording>, rest: seq<Event>, clock: real, spacing: real)
    requires Plausible(rest, clock, spacing)
    ensures Plausible(Recordings(rs) + rest, clock, spacing)
    decreases |rs|
  {
    if rs == [] {
      assert Recordings(rs) + rest == rest;
    } else {
      var n := |rs| - 1;
      var e := Record(rs[n].slot, rs[n].outcome);
      PlausibleFirst(e, rest, clock, spacing);
      PlausibleRecordings(rs[..n], [e] + rest, clock, spacing);
      assert Recordings(rs) + rest == Recordings(rs[..n]) + ([e] + rest);
    }
  }

  lemma PollPlausible(r: Round, rest: seq<Event>, spacing: real)
    requires AfterLoad(r) <= AfterPoll(r) && Plausible(rest, AfterPoll(r), spacing)
    ensures Plausible(PollEvents(r) + rest, AfterLoad(r), spacing)
  {
    if r.poll.Some? {
      PlausibleFirst(PollEvents(r)[0], rest, AfterLoad(r), spacing);
    } else {
      assert PollEvents(r) + rest == rest;
    }
  }

  lemma LoadPlausible(c: Config, m: Main, r: Round, rest: seq<Event>)
    requires AfterCatalog(r) <= AfterLoad(r) && Plausible(rest, AfterLoad(r), Spacing(c.maxPerMinute))
    ensures Plausible(LoadEvents(c, m, r) + rest, AfterCatalog(r), Spacing(c.maxPerMinute))
  {
    if Loads(c, m, r) {
      LoadedIsPaced(r.tracked.value.shops, c.maxPerMinute, r.tracked.value.at);
      PlausibleFirst(LoadEvents(c, m, r)[0], rest, AfterCatalog(r), Spacing(c.maxPerMinute));
    } else {
      assert LoadEvents(c, m, r) + rest == rest;
      PlausibleEarlier(rest, AfterLoad(r), AfterCatalog(r), Spacing(c.maxPerMinute));
    }
  }

  lemma RecordsPlausible(made: bool, rs: seq<Recording>, rest: seq<Event>, clock: real, spacing: real)
    requires Plausible(rest, clock, spacing)
    ensures Plausible((if made then Recordings(rs) else []) + rest, clock, spacing)
  {
    PlausibleRecordings(rs, rest, clock, spacing);
    assert [] + rest == rest;
  }

  lemma RoundPlausible(c: Config, m: Main, r: Round, clock: real, rest: seq<Event>)
    requires InOrder(r, clock) && Plausible(rest, AfterPoll(r), Spacing(c.maxPerMinute))
    ensures Plausible(EventsOf(c, m, r) + rest, clock, Spacing(c.maxPerMinute))
  {
    var spacing := Spacing(c.maxPerMinute);
    var a, b, p, n := CatalogEvents(c, m, r), LoadEvents(c, m, r), PollEvents(r), NoticeEvents(c, m, r);
    RecordsPlausible(PollsNotices(c, m.timers, r.now), r.notices, rest, AfterPoll(r), spacing);
    PollPlausible(r, n + rest, spacing);
    LoadPlausible(c, m, r, p + (n + rest));
    PlausibleEarlier(b + (p + (n + rest)), AfterCatalog(r), clock, spacing);
    RecordsPlausible(PollsCatalog(c, m.timers, r.now), r.catalog, b + (p + (n + rest)), clock, spacing);
    Regrouped(a, b, p, n, rest);
  }

  lemma Regrouped<T>(a: seq<T>, b: seq<T>, p: seq<T>, n: seq<T>, rest: seq<T>)
    ensures (a + (b + (p + n))) + rest == a + (b + (p + (n + rest)))
  {
  }

  // What the loop does is plausible.
  lemma {:induction false} RunPlausible(c: Config, m: Main, rounds: seq<Round>, clock: real)
    requires RunInOrder(rounds, clock)
    ensures Plausible(EventsOfAll(c, m, rounds), clock, Spacing(c.maxPerMinute))
    decreases |rounds|
  {
    if rounds != [] {
      var rest := EventsOfAll(c, After(c, m, rounds[0]), rounds[1..]);
      RunPlausible(c, After(c, m, rounds[0]), rounds[1..], AfterPoll(rounds[0]) + SLEEP);
      PlausibleEarlier(rest, AfterPoll(rounds[0]) + SLEEP, AfterPoll(rounds[0]), Spacing(c.maxPerMinute));
      RoundPlausible(c, m, rounds[0], clock, rest);
    }
  }

  // ---- When loads replace schedules

  lemma {:induction false} RunConcat(st: State, a: seq<Event>, b: seq<Event>, duration: nat)
    ensures Run(st, a + b, duration) == Run(Run(st, a, duration), b, duration)
    ensures LoadTimes(st, a + b, duration) == LoadTimes(st, a, duration) + LoadTimes(Run(st, a, duration), b, duration)
    decreases |a|
  {
    if a == [] {
      assert a + b == b;
    } else {
      var next := Step(st, a[0], duration);
      assert (a + b)[0] == a[0] && (a + b)[1..] == a[1..] + b;
      RunConcat(next, a[1..], b, duration);
      Associative(if Replaces(st, a[0]) then [a[0].at] else [], LoadTimes(next, a[1..], duration),
                  LoadTimes(Run(next, a[1..], duration), b, duration));
    }
  }

  lemma OneEvent(st: State, e: Event, duration: nat)
    ensures Run(st, [e], duration) == Step(st, e, duration)
    ensures LoadTimes(st, [e], duration) == if Replaces(st, e) then [e.at] else []
  {
    assert [e][1..] == [];
    assert LoadTimes(Step(st, e, duration), [], duration) == [];
  }

  lemma {:induction false} RecordingsKeep(st: State, rs: seq<Recording>, duration: nat)
    ensures Run(st, Recordings(rs), duration).schedules == st.schedules
    ensures LoadTimes(st, Recordings(rs), duration) == []
    decreases |rs|
  {
    if rs != [] {
      var n := |rs| - 1;
      var e := Record(rs[n].slot, rs[n].outcome);
      RecordingsKeep(st, rs[..n], duration);
      RunConcat(st, Recordings(rs[..n]), [e], duration);
      OneEvent(Run(st, Recordings(rs[..n]), duration), e, duration);
    }
  }

  lemma NothingAfterLoad(st: State, c: Config, m: Main, r: Round)
    ensures LoadTimes(st, PollEvents(r) + NoticeEvents(c, m, r), c.cooldown) == []
  {
    var p, n := PollEvents(r), NoticeEvents(c, m, r);
    RunConcat(st, p, n, c.cooldown);
    RecordingsKeep(Run(st, p, c.cooldown), r.notices, c.cooldown);
    if p != [] {
      OneEvent(st, p[0], c.cooldown);
    }
  }

  predicate LoadReplaces(c: Config, m: Main, r: Round) {
    Loads(c, m, r) && m.poller.schedules != []
  }

  // A pass replaces schedules at most once.
  lemma RoundLoadTimes(c: Config, m: Main, r: Round)
    ensures LoadTimes(m.poller, EventsOf(c, m, r), c.cooldown)
            == if LoadReplaces(c, m, r) then [r.tracked.value.at] else []
  {
    var a, b, rest := CatalogEvents(c, m, r), LoadEvents(c, m, r), PollEvents(r) + NoticeEvents(c, m, r);
    RecordingsKeep(m.poller, r.catalog, c.cooldown);
    RunConcat(m.poller, a, b + rest, c.cooldown);
    var st := Run(m.poller, a, c.cooldown);
    assert st.schedules == m.poller.schedules && LoadTimes(m.poller, a, c.cooldown) == [];
    RunConcat(st, b, rest, c.cooldown);
    NothingAfterLoad(Run(st, b, c.cooldown), c, m, r);
    if Loads(c, m, r) {
      OneEvent(st, b[0], c.cooldown);
    }
  }

  // The last event that holds the catalog back, and for how long: an attempt or a success.
  function Last(t: Timers, retry: bool): Option<real> {
    if retry then t.attempt else t.success
  }

  function Hold(c: Config, retry: bool): nat {
    if retry then c.retryInterval else c.catalogInterval
  }

  // What is known of the replacing loads to come. Each but perhaps the first must wait for another attempt
  // at the catalog, and attempts keep a gap from the last such event.
  ghost predicate Timely(times: seq<real>, load: Option<real>, last: Option<real>, clock: real, gap: real) {
    && (|times| > 0 ==> clock <= times[0])
    && Spread(times, gap)
    && (|times| > 1 && load.Some? ==> times[1] >= clock + gap)
    && (|times| > 0 && load.Some? && last.Some? ==> times[0] >= last.value + gap)
    && (|times| > 1 && last.Some? ==> times[1] >= last.value + gap)
  }

  // Whole seconds are counted, so an interval is over when it has passed; no interval at all also lets a clock
  // pass that stands back by less than a second.
  lemma ElapsedIff(last: Option<real>, now: real, interval: nat)
    ensures Elapsed(last, now, interval) <==>
              last.None? || now - last.value >= interval as real || (interval == 0 && now - last.value > -1.0)
  {
  }

  ghost predicate Passed(last: Option<real>, now: real, interval: nat) {
    last.None? || now >= last.value + interval as real
  }

  // While the clock does not run backwards, a pass attempts the catalog exactly if both its intervals have
  // passed, and polls the notices exactly if theirs has.
  lemma PollsIff(c: Config, t: Timers, now: real)
    requires t.attempt.Some? ==> t.attempt.value <= now
    requires t.success.Some? ==> t.success.value <= now
    requires t.notice.Some? ==> t.notice.value <= now
    ensures PollsCatalog(c, t, now)
            <==> Passed(t.success, now, c.catalogInterval) && Passed(t.attempt, now, c.retryInterval)
    ensures PollsNotices(c, t, now) <==> Passed(t.notice, now, c.noticeInterval)
  {
    ElapsedIff(t.success, now, c.catalogInterval);
    ElapsedIff(t.attempt, now, c.retryInterval);
    ElapsedIff(t.notice, now, c.noticeInterval);
  }

  lemma ElapsedIs(last: real, now: real, interval: nat)
    requires Elapsed(Some(last), now, interval) && last <= now
    ensures now >= last + interval as real
  {
  }

  lemma TimelyBeforeCatalog(c: Config, t: Timers, r: Round, times: seq<real>, clock: real, retry: bool)
    requires InOrder(r, clock) && (Last(t, retry).Some? ==> Last(t, retry).value <= clock)
    requires var after := Attempted(c, t, r);
             Timely(times, after.load, Last(after, retry), AfterCatalog(r), Hold(c, retry) as real)
    ensures Timely(times, t.load, Last(t, retry), clock, Hold(c, retry) as real)
  {
    if PollsCatalog(c, t, r.now) && Last(t, retry).Some? {
      ElapsedIs(Last(t, retry).value, r.now, Hold(c, retry));
    }
  }

  lemma TimelyBeforeLoad(times: seq<real>, last: Option<real>, at: real, clock: real, gap: real)
    requires Timely(times, Some(at), last, clock, gap) && at <= clock && gap >= 0.0
    requires last.Some? ==> last.value <= at
    ensures Timely([at] + times, None, last, at, gap)
  {
    var all := [at] + times;
    assert forall k :: 0 < k < |all| ==> all[k] == times[k - 1];
    forall k | 0 <= k && k + 2 < |all| ensures all[k + 2] >= all[k] + gap {
      if k > 0 {
        assert times[(k - 1) + 2] >= times[k - 1] + gap;
      }
    }
  }

  lemma TimelyEarlier(times: seq<real>, load: Option<real>, load': Option<real>, last: Option<real>,
                      clock: real, clock': real, gap: real)
    requires Timely(times, load, last, clock, gap) && clock' <= clock
    requires load'.Some? ==> load.Some?
    ensures Timely(times, load', last, clock', gap)
  {
  }

  lemma {:induction false} RunTimely(c: Config, m: Main, rounds: seq<Round>, clock: real, retry: bool)
    requires RunInOrder(rounds, clock)
    requires Last(m.timers, retry).Some? ==> Last(m.timers, retry).value <= clock
    ensures Timely(LoadTimes(m.poller, EventsOfAll(c, m, rounds), c.cooldown), m.timers.load,
                   Last(m.timers, retry), clock, Hold(c, retry) as real)
    decreases |rounds|
  {
    if rounds != [] {
      var r, gap := rounds[0], Hold(c, retry) as real;
      var next := After(c, m, r);
      var t, rest := Attempted(c, m.timers, r), EventsOfAll(c, next, rounds[1..]);
      RunTimely(c, next, rounds[1..], AfterPoll(r) + SLEEP, retry);
      RunConcat(m.poller, EventsOf(c, m, r), rest, c.cooldown);
      RoundLoadTimes(c, m, r);
      var times := LoadTimes(next.poller, rest, c.cooldown);
      TimelyEarlier(times, next.timers.load, next.timers.load, Last(t, retry), AfterPoll(r) + SLEEP, AfterPoll(r), gap);
      if LoadReplaces(c, m, r) {
        var at := r.tracked.value.at;
        TimelyBeforeLoad(times, Last(t, retry), at, AfterPoll(r), gap);
        TimelyEarlier([at] + times, None, t.load, Last(t, retry), at, AfterCatalog(r), gap);
        TimelyBeforeCatalog(c, m.timers, r, [at] + times, clock, retry);
      } else {
        TimelyEarlier(times, next.timers.load, t.load, Last(t, retry), AfterPoll(r), AfterCatalog(r), gap);
        TimelyBeforeCatalog(c, m.timers, r, times, clock, retry);
        assert [] + times == times;
      }
    }
  }

  // Passes are a sleep apart, and so are replacing loads.
  lemma {:induction false} RunSlow(c: Config, m: Main, rounds: seq<Round>, clock: real)
    requires RunInOrder(rounds, clock)
    ensures Apart(LoadTimes(m.poller, EventsOfAll(c, m, rounds), c.cooldown), Some(clock - SLEEP), SLEEP)
    decreases |rounds|
  {
    if rounds != [] {
      var r, next := rounds[0], After(c, m, rounds[0]);
      var rest := EventsOfAll(c, next, rounds[1..]);
      RunSlow(c, next, rounds[1..], AfterPoll(r) + SLEEP);
      RunConcat(m.poller, EventsOf(c, m, r), rest, c.cooldown);
      RoundLoadTimes(c, m, r);
      var times := LoadTimes(next.poller, rest, c.cooldown);
      if LoadReplaces(c, m, r) {
        ApartFirst(r.tracked.value.at, times, Some(clock - SLEEP), SLEEP);
      } else {
        assert [] + times == times;
      }
    }
  }

  ghost function Start(): Main {
    Main(Timers(None, None, None, None), Cooldown.State(map[], []))
  }

  function Longer(a: nat, b: nat): nat {
    if a >= b then a else b
  }

  // Of any three replacing loads the last comes this long after the first: a catalog interval, a retry
  // interval, two sleeps.
  function LoadGap(c: Config): nat {
    Longer(2, Longer(c.catalogInterval, c.retryInterval))
  }

  lemma RunSpread(c: Config, rounds: seq<Round>, clock: real)
    requires RunInOrder(rounds, clock)
    ensures Spread(LoadTimes(Start().poller, EventsOfAll(c, Start(), rounds), c.cooldown), LoadGap(c) as real)
  {
    var times := LoadTimes(Start().poller, EventsOfAll(c, Start(), rounds), c.cooldown);
    RunTimely(c, Start(), rounds, clock, false);
    RunTimely(c, Start(), rounds, clock, true);
    RunSlow(c, Start(), rounds, clock);
    forall k | 0 <= k && k + 2 < |times| ensures times[k + 2] >= times[k] + 2.0 {
      assert times[k + 1] >= times[(k + 1) - 1] + SLEEP && times[k + 2] >= times[(k + 2) - 1] + SLEEP;
    }
  }

  function Shorter(a: nat, b: nat): nat {
    if a <= b then a else b
  }

  // A request for each pass, or what the schedules and the loads allow.
  function Allowance(c: Config): nat {
    Shorter(60, PerMinute(c.maxPerMinute) + 2 * GapsIn(60, LoadGap(c)))
  }

  // So many catalog intervals, or retry intervals, or twice as many sleeps take a minute.
  predicate CoverMinute(c: Config, gaps: nat) {
    gaps * c.catalogInterval >= 60 || gaps * c.retryInterval >= 60 || 2 * gaps >= 60
  }

  lemma AllowanceIs(c: Config)
    ensures Allowance(c) <= 60
    ensures forall gaps: nat :: CoverMinute(c, gaps) ==>
              Allowance(c) <= c.maxPerMinute + 2 * gaps + if c.maxPerMinute == 0 then 1 else 0
  {
    forall gaps: nat | CoverMinute(c, gaps) ensures GapsIn(60, LoadGap(c)) <= gaps {
      LongerTimes(gaps, c.catalogInterval, LoadGap(c));
      LongerTimes(gaps, c.retryInterval, LoadGap(c));
      LongerTimes(gaps, 2, LoadGap(c));
      FewestGaps(60, LoadGap(c), gaps);
    }
  }

  lemma LongerTimes(n: nat, a: nat, b: nat)
    requires a <= b
    ensures n * a <= n * b
  {
  }

  // The state in which a pass polls the schedules.
  ghost function AtPoll(c: Config, m: Main, r: Round): State {
    Run(Run(m.poller, CatalogEvents(c, m, r), c.cooldown), LoadEvents(c, m, r), c.cooldown)
  }

  lemma PacedAtPoll(c: Config, m: Main, r: Round, spacing: real) returns (spacing': real)
    requires Paced(m.poller.schedules, spacing)
    ensures Paced(AtPoll(c, m, r).schedules, spacing')
  {
    spacing' := spacing;
    RecordingsKeep(m.poller, r.catalog, c.cooldown);
    if Loads(c, m, r) {
      spacing' := Spacing(c.maxPerMinute);
      OneEvent(Run(m.poller, CatalogEvents(c, m, r), c.cooldown), LoadEvents(c, m, r)[0], c.cooldown);
      LoadedIsPaced(r.tracked.value.shops, c.maxPerMinute, r.tracked.value.at);
    }
  }

  lemma PollTimes(st: State, r: Round, duration: nat, p: Provider, spacing: real)
    requires Paced(st.schedules, spacing)
    ensures var times := TimesTo(LogOf(st, PollEvents(r), duration), p);
            times == [] || (r.poll.Some? && times == [AfterPoll(r)])
  {
    if r.poll.Some? {
      OnePoll(st, PollEvents(r)[0], duration);
      OnePollTimes(st, PollEvents(r)[0], p, spacing);
    }
  }

  // A pass asks a provider at most once, in its poll.
  lemma PassTimes(c: Config, m: Main, r: Round, p: Provider, spacing: real)
    requires Paced(m.poller.schedules, spacing)
    ensures var times := TimesTo(LogOf(m.poller, EventsOf(c, m, r), c.cooldown), p);
            times == [] || (r.poll.Some? && times == [AfterPoll(r)])
  {
    LogOfRound(c, m, r);
    var spacing' := PacedAtPoll(c, m, r, spacing);
    PollTimes(AtPoll(c, m, r), r, c.cooldown, p, spacing');
  }

  lemma RunStaysPaced(c: Config, m: Main, r: Round, clock: real)
    requires Paced(m.poller.schedules, Spacing(c.maxPerMinute)) && InOrder(r, clock)
    ensures Paced(After(c, m, r).poller.schedules, Spacing(c.maxPerMinute))
  {
    var events := EventsOf(c, m, r);
    RoundPlausible(c, m, r, clock, []);
    assert events + [] == events;
    EventsStayPaced(m.poller, events, c.cooldown, clock, Spacing(c.maxPerMinute));
  }

  // Passes are a sleep apart, and so are the requests to a provider.
  lemma {:induction false} RequestsSlow(c: Config, m: Main, rounds: seq<Round>, clock: real, p: Provider)
    requires RunInOrder(rounds, clock) && Paced(m.poller.schedules, Spacing(c.maxPerMinute))
    ensures Apart(TimesTo(LogOf(m.poller, EventsOfAll(c, m, rounds), c.cooldown), p), Some(clock - SLEEP), SLEEP)
    decreases |rounds|
  {
    if rounds != [] {
      var r, next := rounds[0], After(c, m, rounds[0]);
      var own, later := EventsOf(c, m, r), EventsOfAll(c, next, rounds[1..]);
      RunStaysPaced(c, m, r, clock);
      RequestsSlow(c, next, rounds[1..], AfterPoll(r) + SLEEP, p);
      PassTimes(c, m, r, p, Spacing(c.maxPerMinute));
      LogConcat(m.poller, own, later, c.cooldown);
      TimesToConcat(LogOf(m.poller, own, c.cooldown), LogOf(next.poller, later, c.cooldown), p);
      var times := TimesTo(LogOf(next.poller, later, c.cooldown), p);
      if TimesTo(LogOf(m.poller, own, c.cooldown), p) == [] {
        assert [] + times == times;
      } else {
        ApartFirst(AfterPoll(r), times, Some(clock - SLEEP), SLEEP);
      }
    }
  }

  lemma {:induction false} ApartFar(times: seq<real>, last: Option<real>, gap: real, i: nat, j: nat)
    requires Apart(times, last, gap) && i <= j < |times|
    ensures times[j] >= times[i] + Times(j - i, gap)
    decreases j
  {
    if i < j {
      ApartFar(times, last, gap, i, j - 1);
    }
  }

  // Times a gap apart are at most n in n gaps.
  lemma ApartCount(times: seq<real>, last: Option<real>, gap: real, start: real, n: nat)
    requires Apart(times, last, gap) && gap >= 0.0
    ensures |Within(times, start, Times(n, gap))| <= n
  {
    var w := Within(times, start, Times(n, gap));
    if w != {} {
      var low, high := Extremes(w);
      ApartFar(times, last, gap, low, high);
      SizeOfRange(w, low, high);
      if high - low >= n {
        TimesOrder(n, high - low, gap);
        assert false;
      }
    }
  }

  // In every run of the main loop, whatever fails and however long anything takes, a provider gets in any
  // minute at most its allowance and, for the loads, two requests for each gap between them that a minute
  // takes; and never more than one for each second. With a catalog interval of a minute or more that is two
  // requests for the loads.
  lemma MainLoopKeepsRate(c: Config, rounds: seq<Round>, clock: real, p: Provider, start: real)
    requires RunInOrder(rounds, clock)
    ensures |Within(TimesTo(LogOf(Start().poller, EventsOfAll(c, Start(), rounds), c.cooldown), p), start, 60.0)|
            <= Allowance(c)
    ensures forall gaps: nat :: CoverMinute(c, gaps) ==>
              Allowance(c) <= c.maxPerMinute + 2 * gaps + if c.maxPerMinute == 0 then 1 else 0
    ensures Allowance(c) <= 60
  {
    AllowanceIs(c);
    var events := EventsOfAll(c, Start(), rounds);
    var rs := Requests(Start().poller, events, c.cooldown, p, 0);
    RunPlausible(c, Start(), rounds, clock);
    RunSpread(c, rounds, clock);
    SpreadLoadsKeepRate(Start().poller, events, c.cooldown, p, clock, start, c.maxPerMinute, LoadGap(c));
    LogIsRequests(Start().poller, events, c.cooldown, p, 0);
    assert Within(Ats(rs), start, 60.0) == RequestsWithin(rs, start, 60.0);
    OnePerSecond(c, rounds, clock, p, start);
  }

  lemma OnePerSecond(c: Config, rounds: seq<Round>, clock: real, p: Provider, start: real)
    requires RunInOrder(rounds, clock)
    ensures |Within(TimesTo(LogOf(Start().poller, EventsOfAll(c, Start(), rounds), c.cooldown), p), start, 60.0)| <= 60
  {
    var times := TimesTo(LogOf(Start().poller, EventsOfAll(c, Start(), rounds), c.cooldown), p);
    RequestsSlow(c, Start(), rounds, clock, p);
    SixtySleeps();
    ApartCount(times, Some(clock - SLEEP), SLEEP, start, 60);
  }

  lemma SixtySleeps()
    ensures Times(60, SLEEP) == 60.0
  {
    TimesIsProduct(60, SLEEP);
  }

  // ---- When the catalog and the notices are polled

  ghost function Attempts(c: Config, m: Main, rounds: seq<Round>): seq<real>
    decreases |rounds|
  {
    if rounds == [] then [] else
      (if PollsCatalog(c, m.timers, rounds[0].now) then [rounds[0].now] else [])
      + Attempts(c, After(c, m, rounds[0]), rounds[1..])
  }

  ghost function NoticePolls(c: Config, m: Main, rounds: seq<Round>): seq<real>
    decreases |rounds|
  {
    if rounds == [] then [] else
      (if PollsNotices(c, m.timers, rounds[0].now) then [rounds[0].now] else [])
      + NoticePolls(c, After(c, m, rounds[0]), rounds[1..])
  }

  ghost predicate Apart(times: seq<real>, last: Option<real>, gap: real) {
    && (last.Some? && times != [] ==> times[0] >= last.value + gap)
    && (forall k :: 0 < k < |times| ==> times[k] >= times[k - 1] + gap)
  }

  lemma ApartFirst(now: real, times: seq<real>, last: Option<real>, gap: real)
    requires Apart(times, Some(now), gap) && (last.Some? ==> now >= last.value + gap)
    ensures Apart([now] + times, last, gap)
  {
    var all := [now] + times;
    assert forall k :: 0 < k < |all| ==> all[k] == times[k - 1];
  }

  // Attempts at the catalog are a retry interval apart, failed or not.
  lemma {:induction false} AttemptsApart(c: Config, m: Main, rounds: seq<Round>, clock: real)
    requires RunInOrder(rounds, clock)
    requires m.timers.attempt.Some? ==> m.timers.attempt.value <= clock
    ensures Apart(Attempts(c, m, rounds), m.timers.attempt, c.retryInterval as real)
    decreases |rounds|
  {
    if rounds != [] {
      var r, next := rounds[0], After(c, m, rounds[0]);
      AttemptsApart(c, next, rounds[1..], AfterPoll(r) + SLEEP);
      var rest := Attempts(c, next, rounds[1..]);
      if PollsCatalog(c, m.timers, r.now) {
        if m.timers.attempt.Some? {
          ElapsedIs(m.timers.attempt.value, r.now, c.retryInterval);
        }
        ApartFirst(r.now, rest, m.timers.attempt, c.retryInterval as real);
      } else {
        assert [] + rest == rest;
      }
    }
  }

  // No attempt comes within a catalog interval of the last success.
  lemma {:induction false} NoAttemptAfterSuccess(c: Config, m: Main, rounds: seq<Round>, clock: real)
    requires RunInOrder(rounds, clock)
    requires m.timers.success.Some? && m.timers.success.value <= clock
    ensures forall at :: at in Attempts(c, m, rounds) ==> at >= m.timers.success.value + c.catalogInterval as real
    decreases |rounds|
  {
    if rounds != [] {
      var r, next := rounds[0], After(c, m, rounds[0]);
      NoAttemptAfterSuccess(c, next, rounds[1..], AfterPoll(r) + SLEEP);
      if PollsCatalog(c, m.timers, r.now) {
        ElapsedIs(m.timers.success.value, r.now, c.catalogInterval);
      }
    }
  }

  lemma {:induction false} NoticesApart(c: Config, m: Main, rounds: seq<Round>, clock: real)
    requires RunInOrder(rounds, clock)
    requires m.timers.notice.Some? ==> m.timers.notice.value <= clock
    ensures Apart(NoticePolls(c, m, rounds), m.timers.notice, c.noticeInterval as real)
    decreases |rounds|
  {
    if rounds != [] {
      var r, next := rounds[0], After(c, m, rounds[0]);
      NoticesApart(c, next, rounds[1..], AfterPoll(r) + SLEEP);
      var rest := NoticePolls(c, next, rounds[1..]);
      if PollsNotices(c, m.timers, r.now) {
        if m.timers.notice.Some? {
          ElapsedIs(m.timers.notice.value, r.now, c.noticeInterval);
        }
        ApartFirst(r.now, rest, m.timers.notice, c.noticeInterval as real);
      } else {
        assert [] + rest == rest;
      }
    }
  }

  // ---- The loop's body

  class Service {
    const config: Config
    const poller: Poller
    var lastCatalogAttempt: Option<real>
    var lastCatalogSuccess: Option<real>
    var lastNoticeAttempt: Option<real>
    var lastScheduleLoad: Option<real>

    ghost function Timing(): Timers
      reads this
    {
      Timers(lastCatalogAttempt, lastCatalogSuccess, lastNoticeAttempt, lastScheduleLoad)
    }

    ghost predicate Stands(m: Main)
      reads this, poller, poller.schedules
    {
      && poller.duration == config.cooldown
      && m.timers == Timing()
      && poller.Stands(m.poller)
    }

    constructor (config: Config)
      ensures this.config == config && Stands(Start()) && fresh(poller)
    {
      this.config := config;
      lastCatalogAttempt, lastCatalogSuccess, lastNoticeAttempt, lastScheduleLoad := None, None, None, None;
      poller := new Poller(config.cooldown);
    }

    method RecordAll(rs: seq<Recording>, ghost st: State)
      requires poller.Stands(st)
      modifies poller`cooldowns
      ensures poller.Stands(Run(st, Recordings(rs), poller.duration))
    {
      for i := 0 to |rs|
        invariant poller.Stands(Run(st, Recordings(rs[..i]), poller.duration))
      {
        ghost var before, e := Run(st, Recordings(rs[..i]), poller.duration), Record(rs[i].slot, rs[i].outcome);
        assert rs[..i + 1][..i] == rs[..i];
        RunConcat(st, Recordings(rs[..i]), [e], poller.duration);
        OneEvent(before, e, poller.duration);
        poller.RecordResultCooldown(rs[i].slot, rs[i].outcome, before);
      }
      assert rs[..|rs|] == rs;
    }

    // Up to the catalog's result.
    method PollCatalog(r: Round, ghost m: Main) returns (pollNotices: bool)
      requires Stands(m)
      modifies this, poller`cooldowns
      ensures poller.Stands(Run(m.poller, CatalogEvents(config, m, r), config.cooldown))
      ensures Timing() == Attempted(config, m.timers, r)
      ensures pollNotices == PollsNotices(config, m.timers, r.now)
    {
      var pollCatalog := Elapsed(lastCatalogSuccess, r.now, config.catalogInterval)
                         && Elapsed(lastCatalogAttempt, r.now, config.retryInterval);
      if pollCatalog {
        lastCatalogAttempt := Some(r.now);
      }
      pollNotices := Elapsed(lastNoticeAttempt, r.now, config.noticeInterval);
      if pollNotices {
        lastNoticeAttempt := Some(r.now);
      }
      if pollCatalog {
        RecordAll(r.catalog, m.poller);
        if r.success.Some? {
          lastCatalogSuccess, lastScheduleLoad := r.success, None;
        }
      }
    }

    method LoadIfWanted(r: Round, ghost m: Main, ghost st: State)
      requires poller.Stands(st) && poller.duration == config.cooldown && st.schedules == m.poller.schedules
      requires Timing() == Attempted(config, m.timers, r)
      modifies this`lastScheduleLoad, poller`schedules
      ensures poller.Stands(Run(st, LoadEvents(config, m, r), config.cooldown))
      ensures Timing() == TimersAfter(config, m, r)
      ensures poller.schedules == old(poller.schedules) || fresh(poller.schedules)
    {
      if (|poller.schedules| == 0 || lastScheduleLoad.None?) && r.tracked.Some? {
        poller.Reload(r.tracked.value.shops, config.maxPerMinute, r.tracked.value.at, st);
        lastScheduleLoad := Some(r.tracked.value.at);
        OneEvent(st, LoadEvents(config, m, r)[0], config.cooldown);
      }
    }

    method PollSchedules(r: Round, ghost st: State) returns (sent: seq<Sent>)
      requires poller.Stands(st) && poller.duration == config.cooldown
      modifies poller`cooldowns, poller.schedules
      ensures poller.Stands(Run(st, PollEvents(r), config.cooldown))
      ensures sent == LogOf(st, PollEvents(r), config.cooldown)
    {
      sent := [];
      if r.poll.Some? {
        var i := r.poll.value;
        var jobs := poller.PollDue(i.query, i.now, i.fetch, i.order, st);
        OneEvent(st, PollEvents(r)[0], config.cooldown);
        OnePoll(st, PollEvents(r)[0], config.cooldown);
        sent := Stamped(jobs, i.now);
      }
    }

    // One pass of the loop.
    method Pass(r: Round, ghost m: Main) returns (sent: seq<Sent>)
      requires Stands(m)
      modifies this, poller, poller.schedules
      ensures Stands(After(config, m, r))
      ensures sent == LogOf(m.poller, EventsOf(config, m, r), config.cooldown)
      ensures poller.schedules == old(poller.schedules) || fresh(poller.schedules)
    {
      var pollNotices := PollCatalog(r, m);
      ghost var st := Run(m.poller, CatalogEvents(config, m, r), config.cooldown);
      RecordingsKeep(m.poller, r.catalog, config.cooldown);
      LoadIfWanted(r, m, st);
      st := Run(st, LoadEvents(config, m, r), config.cooldown);
      sent := PollSchedules(r, st);
      st := Run(st, PollEvents(r), config.cooldown);
      if pollNotices {
        RecordAll(r.notices, st);
      }
      RunOfRound(config, m, r);
      LogOfRound(config, m, r);
    }

    method Passes(rounds: seq<Round>, ghost m: Main) returns (log: seq<Sent>)
      requires Stands(m)
      modifies this, poller, poller.schedules
      ensures log == LogOf(m.poller, EventsOfAll(config, m, rounds), config.cooldown)
      decreases |rounds|
    {
      log := [];
      if rounds != [] {
        ghost var next := After(config, m, rounds[0]);
        LogConcat(m.poller, EventsOf(config, m, rounds[0]), EventsOfAll(config, next, rounds[1..]), config.cooldown);
        var sent := Pass(rounds[0], m);
        var rest := Passes(rounds[1..], next);
        log := sent + rest;
      }
    }

    // The loop from its start: what it sends any provider in any minute stays within the allowance.
    method Serve(rounds: seq<Round>, ghost clock: real) returns (log: seq<Sent>)
      requires Stands(Start()) && RunInOrder(rounds, clock)
      modifies this, poller, poller.schedules
      ensures log == LogOf(Start().poller, EventsOfAll(config, Start(), rounds), config.cooldown)
      ensures forall p, start :: |Within(TimesTo(log, p), start, 60.0)| <= Allowance(config)
      ensures Allowance(config) <= 60
      ensures forall gaps: nat :: CoverMinute(config, gaps) ==>
                Allowance(config) <= config.maxPerMinute + 2 * gaps + if config.maxPerMinute == 0 then 1 else 0
    {
      AllowanceIs(config);
      log := Passes(rounds, Start());
      forall p, start ensures |Within(TimesTo(log, p), start, 60.0)| <= Allowance(config) {
        MainLoopKeepsRate(config, rounds, clock, p, start);
      }
    }
  }

  lemma OnePoll(st: State, e: Event, duration: nat)
    ensures LogOf(st, [e], duration) == OwnLog(st, e)
  {
    assert [e][1..] == [];
    assert LogOf(Step(st, e, duration), [], duration) == [];
  }

  lemma {:induction false} RecordingsSendNothing(st: State, rs: seq<Recording>, duration: nat)
    ensures LogOf(st, Recordings(rs), duration) == []
    decreases |rs|
  {
    if rs != [] {
      var n := |rs| - 1;
      var e := Record(rs[n].slot, rs[n].outcome);
      RecordingsSendNothing(st, rs[..n], duration);
      LogConcat(st, Recordings(rs[..n]), [e], duration);
      OnePoll(Run(st, Recordings(rs[..n]), duration), e, duration);
    }
  }

  lemma OnlyPollsSend(c: Config, m: Main, r: Round, st: State)
    ensures LogOf(st, CatalogEvents(c, m, r), c.cooldown) == []
    ensures LogOf(st, LoadEvents(c, m, r), c.cooldown) == []
    ensures LogOf(st, NoticeEvents(c, m, r), c.cooldown) == []
  {
    RecordingsSendNothing(st, r.catalog, c.cooldown);
    RecordingsSendNothing(st, r.notices, c.cooldown);
    if Loads(c, m, r) {
      OnePoll(st, LoadEvents(c, m, r)[0], c.cooldown);
    }
  }

  // A pass sends what its poll of the schedules sends.
  lemma LogOfRound(c: Config, m: Main, r: Round)
    ensures LogOf(m.poller, EventsOf(c, m, r), c.cooldown)
            == LogOf(Run(Run(m.poller, CatalogEvents(c, m, r), c.cooldown), LoadEvents(c, m, r), c.cooldown),
                     PollEvents(r), c.cooldown)
  {
    var a, b, p, n := CatalogEvents(c, m, r), LoadEvents(c, m, r), PollEvents(r), NoticeEvents(c, m, r);
    var afterCatalog := Run(m.poller, a, c.cooldown);
    var afterLoad := Run(afterCatalog, b, c.cooldown);
    var sent := LogOf(afterLoad, p, c.cooldown);
    OnlyPollsSend(c, m, r, m.poller);
    OnlyPollsSend(c, m, r, afterCatalog);
    OnlyPollsSend(c, m, r, Run(afterLoad, p, c.cooldown));
    LogConcat(m.poller, a, b + (p + n), c.cooldown);
    LogConcat(afterCatalog, b, p + n, c.cooldown);
    LogConcat(afterLoad, p, n, c.cooldown);
    assert [] + sent == sent && sent + [] == sent;
  }

  lemma RunOfRound(c: Config, m: Main, r: Round)
    ensures Run(m.poller, EventsOf(c, m, r), c.cooldown)
            == Run(Run(Run(Run(m.poller, CatalogEvents(c, m, r), c.cooldown), LoadEvents(c, m, r), c.cooldown),
                       PollEvents(r), c.cooldown), NoticeEvents(c, m, r), c.cooldown)
  {
    var a, b, p, n := CatalogEvents(c, m, r), LoadEvents(c, m, r), PollEvents(r), NoticeEvents(c, m, r);
    RunConcat(m.poller, a, b + (p + n), c.cooldown);
    RunConcat(Run(m.poller, a, c.cooldown), b, p + n, c.cooldown);
    RunConcat(Run(Run(m.poller, a, c.cooldown), b, c.cooldown), p, n, c.cooldown);
  }
}
