/** When the main loop keeps the configured rate, and runs in which loads break it. */
module LoadsCost {
  import opened Wrappers
  import opened Sequences
  import opened WaitSchedule
  import opened Pacing
  import opened Cooldown
  import opened Rate
  import opened MainLoop

  const SHOPS := [Shop(1, "840", None)]
  const PROVIDER := International(Us)
  const JOB := Job(PROVIDER, [1])
  const FETCH: Job -> Outcome := (job: Job) => Outcome(Some(200), 0.0)

  function Pace(c: Config): real {
    Spacing(c.maxPerMinute)
  }

  function DueAt(c: Config, due: real): Schedule {
    Schedule(PROVIDER, [[1]], 0, due, Pace(c))
  }

  ghost function MainAt(c: Config, t: Timers, due: real): Main {
    Main(t, Cooldown.State(map[], [DueAt(c, due)]))
  }

  // A pass at one time that polls the schedules at another.
  function PassAt(now: real, success: Option<real>, tracked: Option<Tracked>, tick: real): Round {
    Round(now, [], success, tracked, Some(PollInput(tick, tick, FETCH, [])), [])
  }

  // ---- One shop's passes

  lemma IdsOfOne(shop: Shop, p: Provider)
    ensures IdsOf([shop], p) == if WaitProviderFor(shop) == Some(p) then [shop.id] else []
  {
    assert [shop][..0] == [] && IdsOf([], p) == [];
  }

  lemma {:induction false} OnlySelected<T>(s: seq<T>, x: T, f: T -> bool)
    requires Distinct(s) && x in s && forall y :: y in s ==> (f(y) <==> y == x)
    ensures Select(s, f) == [x]
  {
    SelectMembers(s, f);
    SelectDistinct(s, f);
    var r := Select(s, f);
    assert x in r;
    assert SetOf(r) == {x};
    DistinctSize(r);
  }

  lemma LoadedIs(c: Config, at: real)
    ensures LoadedAll(SHOPS, c.maxPerMinute, at) == [DueAt(c, at)]
  {
    AllProviders();
    forall p ensures IdsOf(SHOPS, p) == if p == PROVIDER then [1] else [] {
      IdsOfOne(SHOPS[0], p);
    }
    OnlySelected(PROVIDERS, PROVIDER, p => IdsOf(SHOPS, p) != []);
    LoadedDueAt(c, at);
  }

  lemma LoadedDueAt(c: Config, at: real)
    requires IdsOf(SHOPS, PROVIDER) == [1]
    ensures Loaded(SHOPS, PROVIDER, c.maxPerMinute, at, 0, 1) == DueAt(c, at)
  {
    assert Stagger(Pace(c), 0, 1) == 0.0;
  }

  lemma PollOfDue(c: Config, due: real, tick: real)
    requires due <= tick
    ensures var st, e := Cooldown.State(map[], [DueAt(c, due)]), Poll(tick, tick, FETCH, []);
            && Run(st, [e], c.cooldown) == Cooldown.State(map[], [DueAt(c, tick + Pace(c))])
            && LogOf(st, [e], c.cooldown) == [Sent(tick, JOB)]
  {
    var st, e := Cooldown.State(map[], [DueAt(c, due)]), Poll(tick, tick, FETCH, []);
    OneEvent(st, e, c.cooldown);
    OnePoll(st, e, c.cooldown);
    assert Active(map[], WAIT_TIME, tick) == {};
    var cooling := CoolingAt(st.cooldowns, tick);
    assert !cooling(PROVIDER);
    assert NextAll(st.schedules, tick, cooling) == [DueAt(c, tick + Pace(c))];
    assert st.schedules[..0] == [] && Jobs([], tick, cooling) == [];
    assert JobsOf(st, e) == [JOB];
    assert [JOB][1..] == [] && Stamped([], tick) == [];
    assert Finished([JOB], []) == [] && RecordedAll(map[], [], FETCH, c.cooldown) == map[];
  }

  // What a pass loads, if it does.
  lemma LoadOf(c: Config, t: Timers, due: real, r: Round)
    requires r.tracked.Some? ==> r.tracked.value.shops == SHOPS
    ensures var m := MainAt(c, t, due);
            Run(m.poller, LoadEvents(c, m, r), c.cooldown)
            == MainAt(c, t, if Loads(c, m, r) then r.tracked.value.at else due).poller
  {
    var m := MainAt(c, t, due);
    if Loads(c, m, r) {
      LoadedIs(c, r.tracked.value.at);
      OneEvent(m.poller, LoadEvents(c, m, r)[0], c.cooldown);
    }
  }

  // One such pass: it sends the shop's batch, and the provider is due a spacing later.
  lemma OnePass(c: Config, t: Timers, due: real, now: real, success: Option<real>, tracked: Option<Tracked>, tick: real)
    requires tracked.Some? ==> tracked.value.shops == SHOPS
    requires var r := PassAt(now, success, tracked, tick);
             (if Loads(c, MainAt(c, t, due), r) then tracked.value.at else due) <= tick
    ensures var m, r := MainAt(c, t, due), PassAt(now, success, tracked, tick);
            && After(c, m, r).poller == MainAt(c, t, tick + Pace(c)).poller
            && LogOf(m.poller, EventsOf(c, m, r), c.cooldown) == [Sent(tick, JOB)]
  {
    var m, r := MainAt(c, t, due), PassAt(now, success, tracked, tick);
    assert CatalogEvents(c, m, r) == [] && NoticeEvents(c, m, r) == [];
    RunOfRound(c, m, r);
    LogOfRound(c, m, r);
    LoadOf(c, t, due, r);
    PollOfDue(c, if Loads(c, m, r) then tracked.value.at else due, tick);
  }

  // When a run sends the batch.
  ghost function TimesFrom(c: Config, m: Main, rounds: seq<Round>): seq<real> {
    TimesTo(LogOf(m.poller, EventsOfAll(c, m, rounds), c.cooldown), PROVIDER)
  }

  // The rest of a run: possible from a time on, and when it sends the batch.
  ghost predicate Continues(c: Config, t: Timers, due: real, clock: real, rounds: seq<Round>, times: seq<real>) {
    RunInOrder(rounds, clock) && TimesFrom(c, MainAt(c, t, due), rounds) == times
  }

  lemma PassFirst(c: Config, t: Timers, due: real, clock: real, now: real, success: Option<real>,
                  tracked: Option<Tracked>, tick: real, t': Timers, rest: seq<Round>, times: seq<real>)
    requires tracked.Some? ==> tracked.value.shops == SHOPS
    requires var m, r := MainAt(c, t, due), PassAt(now, success, tracked, tick);
             && InOrder(r, clock)
             && (if Loads(c, m, r) then tracked.value.at else due) <= tick
             && TimersAfter(c, m, r) == t'
    requires Continues(c, t', tick + Pace(c), tick + SLEEP, rest, times)
    ensures Continues(c, t, due, clock, [PassAt(now, success, tracked, tick)] + rest, [tick] + times)
  {
    var m, r := MainAt(c, t, due), PassAt(now, success, tracked, tick);
    OnePass(c, t, due, now, success, tracked, tick);
    var next := MainAt(c, t', tick + Pace(c));
    assert After(c, m, r) == next;
    assert ([r] + rest)[0] == r && ([r] + rest)[1..] == rest;
    var later := EventsOfAll(c, next, rest);
    assert EventsOfAll(c, m, [r] + rest) == EventsOf(c, m, r) + later;
    LogConcat(m.poller, EventsOf(c, m, r), later, c.cooldown);
    TimesToConcat([Sent(tick, JOB)], LogOf(next.poller, later, c.cooldown), PROVIDER);
    assert [Sent(tick, JOB)][1..] == [] && TimesTo([], PROVIDER) == [];
  }

  // The timers after a pass in which the catalog, if polled, does not succeed.
  function Idle(c: Config, t: Timers, now: real): Timers {
    Attempted(c, t, PassAt(now, None, None, now))
  }

  // A pass with nothing to load.
  lemma PlainPass(c: Config, t: Timers, due: real, clock: real, tick: real, rest: seq<Round>, times: seq<real>)
    requires t.load.Some? && due <= tick && clock <= tick
    requires Continues(c, Idle(c, t, tick), tick + Pace(c), tick + SLEEP, rest, times)
    ensures Continues(c, t, due, clock, [PassAt(tick, None, None, tick)] + rest, [tick] + times)
  {
    PassFirst(c, t, due, clock, tick, None, None, tick, Idle(c, t, tick), rest, times);
  }

  // A pass that makes up for a failed load.
  lemma LoadPass(c: Config, t: Timers, due: real, clock: real, tick: real, rest: seq<Round>, times: seq<real>)
    requires t.load.None? && clock <= tick
    requires Continues(c, Idle(c, t, tick).(load := Some(tick)), tick + Pace(c), tick + SLEEP, rest, times)
    ensures Continues(c, t, due, clock, [PassAt(tick, None, Some(Tracked(tick, SHOPS)), tick)] + rest, [tick] + times)
  {
    PassFirst(c, t, due, clock, tick, None, Some(Tracked(tick, SHOPS)), tick, Idle(c, t, tick).(load := Some(tick)),
              rest, times);
  }

  // A pass in which the catalog succeeds and the load fails.
  lemma CatalogPass(c: Config, t: Timers, due: real, clock: real, now: real, tick: real, rest: seq<Round>,
                    times: seq<real>)
    requires PollsCatalog(c, t, now) && due <= tick && clock <= now <= tick
    requires Continues(c, Idle(c, t, now).(success := Some(now), load := None), tick + Pace(c), tick + SLEEP,
                       rest, times)
    ensures Continues(c, t, due, clock, [PassAt(now, Some(now), None, tick)] + rest, [tick] + times)
  {
    PassFirst(c, t, due, clock, now, Some(now), None, tick, Idle(c, t, now).(success := Some(now), load := None), rest,
              times);
  }

  lemma NoPass(c: Config, t: Timers, due: real, clock: real)
    ensures Continues(c, t, due, clock, [], [])
  {
  }

  function TimersAt(catalog: real, load: Option<real>): Timers {
    Timers(Some(catalog), Some(catalog), Some(catalog), load)
  }

  // The first pass: the catalog succeeds, the schedules are loaded, and the poll fails.
  const FIRST := Round(0.0, [], Some(0.0), Some(Tracked(0.0, SHOPS)), None, [])

  lemma FirstPass(c: Config)
    ensures After(c, Start(), FIRST) == MainAt(c, TimersAt(0.0, Some(0.0)), 0.0)
    ensures LogOf(Start().poller, EventsOf(c, Start(), FIRST), c.cooldown) == []
  {
    var m := Start();
    assert CatalogEvents(c, m, FIRST) == [] && NoticeEvents(c, m, FIRST) == [] && PollEvents(FIRST) == [];
    RunOfRound(c, m, FIRST);
    LogOfRound(c, m, FIRST);
    LoadedIs(c, 0.0);
    OneEvent(m.poller, LoadEvents(c, m, FIRST)[0], c.cooldown);
  }

  lemma AfterFirst(c: Config, rest: seq<Round>, times: seq<real>)
    requires Continues(c, TimersAt(0.0, Some(0.0)), 0.0, SLEEP, rest, times)
    ensures RunInOrder([FIRST] + rest, 0.0)
    ensures TimesFrom(c, Start(), [FIRST] + rest) == times
  {
    var m := MainAt(c, TimersAt(0.0, Some(0.0)), 0.0);
    FirstPass(c);
    assert ([FIRST] + rest)[0] == FIRST && ([FIRST] + rest)[1..] == rest;
    var later := EventsOfAll(c, m, rest);
    LogConcat(Start().poller, EventsOf(c, Start(), FIRST), later, c.cooldown);
    assert [] + LogOf(m.poller, later, c.cooldown) == LogOf(m.poller, later, c.cooldown);
  }

  // ---- One load is enough to break a rate below one a second

  function Steps(from: real, spacing: real, count: nat): (times: seq<real>)
    ensures |times| == count
    decreases count
  {
    if count == 0 then [] else [from] + Steps(from + spacing, spacing, count - 1)
  }

  lemma {:induction false} StepsWithin(from: real, spacing: real, count: nat)
    requires spacing >= 0.0
    ensures forall i :: 0 <= i < count ==>
              from <= Steps(from, spacing, count)[i] <= from + Times(count, spacing) - spacing
    decreases count
  {
    if count > 0 {
      StepsWithin(from + spacing, spacing, count - 1);
      TimesOrder(0, count - 1, spacing);
      var rest := Steps(from + spacing, spacing, count - 1);
      assert forall i :: 0 < i < count ==> Steps(from, spacing, count)[i] == rest[i - 1];
    }
  }

  // One pass when the provider is due, before the others.
  lemma MorePasses(c: Config, t: Timers, due: real, clock: real, count: nat, later: seq<Round>)
    returns (rounds: seq<Round>)
    requires t.load.Some? && clock <= due && SLEEP <= Pace(c) && count > 0
    requires Continues(c, Idle(c, t, due), due + Pace(c), due + SLEEP, later, Steps(due + Pace(c), Pace(c), count - 1))
    ensures Continues(c, t, due, clock, rounds, Steps(due, Pace(c), count))
  {
    var times := Steps(due + Pace(c), Pace(c), count - 1);
    PlainPass(c, t, due, clock, due, later, times);
    rounds := [PassAt(due, None, None, due)] + later;
    assert Steps(due, Pace(c), count) == [due] + times;
  }

  // Passes whenever the provider is due.
  lemma {:induction false} SteadyPasses(c: Config, t: Timers, due: real, clock: real, count: nat)
    returns (rounds: seq<Round>)
    requires t.load.Some? && clock <= due && SLEEP <= Pace(c)
    ensures Continues(c, t, due, clock, rounds, Steps(due, Pace(c), count))
    decreases count
  {
    if count == 0 {
      NoPass(c, t, due, clock);
      rounds := [];
    } else {
      var later := SteadyPasses(c, Idle(c, t, due), due + Pace(c), due + SLEEP, count - 1);
      rounds := MorePasses(c, t, due, clock, count, later);
    }
  }

  lemma SlowPace(c: Config)
    requires PerMinute(c.maxPerMinute) < 60
    ensures Pace(c) > 1.0
  {
    var n, spacing := PerMinute(c.maxPerMinute) as real, Pace(c);
    assert n * spacing == 60.0;
    if spacing <= 1.0 {
      AtMost(n, spacing);
      assert false;
    }
  }

  lemma AtMost(n: real, x: real)
    requires n >= 0.0 && x <= 1.0
    ensures n * x <= n
  {
  }

  // When the catalog can be polled again after time 0, and a sleep is over.
  function Again(c: Config): real {
    Longer(1, Longer(c.catalogInterval, c.retryInterval)) as real
  }

  // One request before the catalog's new schedules are loaded, one right after, and then one a spacing.
  function BurstTimes(c: Config): seq<real> {
    [Again(c)] + Steps(Again(c) + SLEEP, Pace(c), PerMinute(c.maxPerMinute))
  }

  lemma CatalogAgain(c: Config)
    ensures PollsCatalog(c, TimersAt(0.0, Some(0.0)), Again(c)) && Again(c) >= SLEEP
  {
    assert (Again(c) - 0.0).Floor == Longer(1, Longer(c.catalogInterval, c.retryInterval));
  }

  lemma LoadFirst(c: Config, t: Timers, due: real, loaded: real, n: nat, later: seq<Round>) returns (rounds: seq<Round>)
    requires t.load.None? && SLEEP <= Pace(c) && n > 0
    requires Continues(c, Idle(c, t, loaded).(load := Some(loaded)), loaded + Pace(c), loaded + SLEEP, later,
                       Steps(loaded + Pace(c), Pace(c), n - 1))
    ensures Continues(c, t, due, loaded, rounds, Steps(loaded, Pace(c), n))
  {
    var times := Steps(loaded + Pace(c), Pace(c), n - 1);
    LoadPass(c, t, due, loaded, loaded, later, times);
    rounds := [PassAt(loaded, None, Some(Tracked(loaded, SHOPS)), loaded)] + later;
    assert Steps(loaded, Pace(c), n) == [loaded] + times;
  }

  // A load after one that failed: a request at once, and then one a spacing.
  lemma AfterFailedLoad(c: Config, t: Timers, due: real, loaded: real) returns (rounds: seq<Round>)
    requires t.load.None? && SLEEP <= Pace(c)
    ensures Continues(c, t, due, loaded, rounds, Steps(loaded, Pace(c), PerMinute(c.maxPerMinute)))
  {
    var n := PerMinute(c.maxPerMinute);
    var after := Idle(c, t, loaded).(load := Some(loaded));
    var later := SteadyPasses(c, after, loaded + Pace(c), loaded + SLEEP, n - 1);
    rounds := LoadFirst(c, t, due, loaded, n, later);
  }

  // A success whose load fails, a sleep before the load works.
  lemma FailedLoad(c: Config, t: Timers, first: real) returns (rounds: seq<Round>)
    requires PollsCatalog(c, t, first) && SLEEP <= first && SLEEP <= Pace(c)
    ensures Continues(c, t, 0.0, SLEEP, rounds, [first] + Steps(first + SLEEP, Pace(c), PerMinute(c.maxPerMinute)))
  {
    var failed := Idle(c, t, first).(success := Some(first), load := None);
    rounds := AfterFailedLoad(c, failed, first + Pace(c), first + SLEEP);
    CatalogPass(c, t, 0.0, SLEEP, first, first, rounds, Steps(first + SLEEP, Pace(c), PerMinute(c.maxPerMinute)));
    rounds := [PassAt(first, Some(first), None, first)] + rounds;
  }

  lemma Burst(c: Config) returns (rounds: seq<Round>)
    requires PerMinute(c.maxPerMinute) < 60
    ensures RunInOrder(rounds, 0.0) && TimesFrom(c, Start(), rounds) == BurstTimes(c)
  {
    SlowPace(c);
    CatalogAgain(c);
    var rest := FailedLoad(c, TimersAt(0.0, Some(0.0)), Again(c));
    AfterFirst(c, rest, BurstTimes(c));
    rounds := [FIRST] + rest;
  }

  lemma BurstCount(c: Config)
    requires PerMinute(c.maxPerMinute) < 60
    ensures |Within(BurstTimes(c), Again(c), 60.0)| == PerMinute(c.maxPerMinute) + 1
  {
    var n, times := PerMinute(c.maxPerMinute), BurstTimes(c);
    SlowPace(c);
    MinuteOfSpacings(c.maxPerMinute);
    StepsWithin(Again(c) + SLEEP, Pace(c), n);
    var steps := Steps(Again(c) + SLEEP, Pace(c), n);
    assert forall i :: 0 < i <= n ==> times[i] == steps[i - 1];
    AllWithin(times, Again(c), 60.0);
  }

  lemma AllWithin(times: seq<real>, start: real, length: real)
    requires forall i :: 0 <= i < |times| ==> start <= times[i] < start + length
    ensures |Within(times, start, length)| == |times|
  {
    assert Within(times, start, length) == UpTo(|times|);
  }

  ghost function UpTo(n: nat): (s: set<nat>)
    ensures |s| == n && forall i: nat :: i in s <==> i < n
  {
    if n == 0 then {} else UpTo(n - 1) + {n - 1}
  }

  // No provider is ever asked more than the configured number of times in a minute.
  ghost predicate KeepsRate(c: Config) {
    forall rounds, clock, p, start :: RunInOrder(rounds, clock) ==>
      |Within(TimesTo(LogOf(Start().poller, EventsOfAll(c, Start(), rounds), c.cooldown), p), start, 60.0)|
      <= if c.maxPerMinute == 0 then 1 else c.maxPerMinute
  }

  // The main loop keeps the configured rate in all its runs exactly if that is one a second or more, whatever
  // the intervals: below that one load is enough to break it.
  lemma RateKeptIff(c: Config)
    ensures KeepsRate(c) <==> c.maxPerMinute >= 60
  {
    if PerMinute(c.maxPerMinute) >= 60 {
      forall rounds, clock, p, start | RunInOrder(rounds, clock)
        ensures |Within(TimesTo(LogOf(Start().poller, EventsOfAll(c, Start(), rounds), c.cooldown), p), start, 60.0)|
                <= PerMinute(c.maxPerMinute)
      {
        OnePerSecond(c, rounds, clock, p, start);
      }
    } else {
      var rounds := Burst(c);
      BurstCount(c);
      var log := LogOf(Start().poller, EventsOfAll(c, Start(), rounds), c.cooldown);
      assert |Within(TimesTo(log, PROVIDER), Again(c), 60.0)| > PerMinute(c.maxPerMinute);
    }
  }

  // ---- Two loads in a minute: the bound of the main loop is reached

  // Six requests a minute, and every interval a minute.
  const CONFIG := Config(60, 60, 60, 600, 6)

  lemma TenSeconds()
    ensures Pace(CONFIG) == 10.0
  {
    assert PerMinute(6) == 6;
  }

  // The last two passes: after the second success, a load that fails and one at 122.
  lemma LastPasses() returns (rounds: seq<Round>, times: seq<real>)
    ensures times == [121.0] + [122.0]
    ensures Continues(CONFIG, TimersAt(60.0, Some(71.0)), 121.0, 112.0, rounds, times)
  {
    TenSeconds();
    NoPass(CONFIG, TimersAt(120.0, Some(122.0)), 132.0, 123.0);
    LoadPass(CONFIG, TimersAt(120.0, None), 131.0, 122.0, 122.0, [], []);
    rounds, times := [PassAt(122.0, None, Some(Tracked(122.0, SHOPS)), 122.0)] + [], [122.0] + [];
    CatalogPass(CONFIG, TimersAt(60.0, Some(71.0)), 121.0, 112.0, 120.0, 121.0, rounds, times);
    rounds, times := [PassAt(120.0, Some(120.0), None, 121.0)] + rounds, [121.0] + times;
    assert [122.0] + [] == [122.0];
  }

  // The passes after the first success whose load fails: a load at 71, and then as above.
  lemma LaterPasses() returns (rounds: seq<Round>, times: seq<real>)
    ensures times == [71.0] + ([81.0] + ([91.0] + ([101.0] + ([111.0] + ([121.0] + [122.0])))))
    ensures Continues(CONFIG, TimersAt(60.0, None), 80.0, 71.0, rounds, times)
  {
    TenSeconds();
    rounds, times := LastPasses();
    rounds, times := FourPasses(rounds, times);
    LoadPass(CONFIG, TimersAt(60.0, None), 80.0, 71.0, 71.0, rounds, times);
    rounds, times := [PassAt(71.0, None, Some(Tracked(71.0, SHOPS)), 71.0)] + rounds, [71.0] + times;
  }

  lemma FourPasses(rest: seq<Round>, times: seq<real>) returns (rounds: seq<Round>, all: seq<real>)
    requires Continues(CONFIG, TimersAt(60.0, Some(71.0)), 121.0, 112.0, rest, times)
    ensures all == [81.0] + ([91.0] + ([101.0] + ([111.0] + times)))
    ensures Continues(CONFIG, TimersAt(60.0, Some(71.0)), 81.0, 72.0, rounds, all)
  {
    var t := TimersAt(60.0, Some(71.0));
    TenSeconds();
    rounds, all := rest, times;
    PlainPass(CONFIG, t, 111.0, 102.0, 111.0, rounds, all);
    rounds, all := [PassAt(111.0, None, None, 111.0)] + rounds, [111.0] + all;
    PlainPass(CONFIG, t, 101.0, 92.0, 101.0, rounds, all);
    rounds, all := [PassAt(101.0, None, None, 101.0)] + rounds, [101.0] + all;
    PlainPass(CONFIG, t, 91.0, 82.0, 91.0, rounds, all);
    rounds, all := [PassAt(91.0, None, None, 91.0)] + rounds, [91.0] + all;
    PlainPass(CONFIG, t, 81.0, 72.0, 81.0, rounds, all);
    rounds, all := [PassAt(81.0, None, None, 81.0)] + rounds, [81.0] + all;
  }

  // A run whose minute from 70 on asks the provider eight times: as often as the bound allows.
  lemma LoadsCostTwo() returns (rounds: seq<Round>)
    ensures RunInOrder(rounds, 0.0)
    ensures TimesFrom(CONFIG, Start(), rounds) == [70.0, 71.0, 81.0, 91.0, 101.0, 111.0, 121.0, 122.0]
    ensures |Within(TimesFrom(CONFIG, Start(), rounds), 70.0, 60.0)| == 8
    ensures PerMinute(CONFIG.maxPerMinute) == 6 && Allowance(CONFIG) == 8
  {
    var times;
    TenSeconds();
    rounds, times := LaterPasses();
    CatalogPass(CONFIG, TimersAt(0.0, Some(0.0)), 0.0, SLEEP, 60.0, 70.0, rounds, times);
    rounds := [PassAt(60.0, Some(60.0), None, 70.0)] + rounds;
    AfterFirst(CONFIG, rounds, [70.0] + times);
    rounds := [FIRST] + rounds;
    EightTimes([70.0] + times);
  }

  lemma EightTimes(times: seq<real>)
    requires times == [70.0] + ([71.0] + ([81.0] + ([91.0] + ([101.0] + ([111.0] + ([121.0] + [122.0]))))))
    ensures times == [70.0, 71.0, 81.0, 91.0, 101.0, 111.0, 121.0, 122.0]
    ensures |Within(times, 70.0, 60.0)| == 8
  {
    AllWithin(times, 70.0, 60.0);
  }
}
