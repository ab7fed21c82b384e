/** Provider cooldowns, and the poller as a state machine over ticks, records and reloads. */
module Cooldown {
  import opened Wrappers
  import opened Sequences
  import opened WaitSchedule
  import opened Pacing

  // The primary key of a cooldown row; the row's value here is its cooldown_until.
  datatype Slot = Slot(endpoint: string, key: string)
  type Cooldowns = map<Slot, real>

  // What a request came back with, and when the result was recorded.
  datatype Outcome = Outcome(status: Option<int>, at: real)

  const WAIT_TIME := "wait_time"

  predicate ShouldTrip(status: Option<int>) {
    status == Some(403) || status == Some(405) || status == Some(429)
  }

  function Greatest(x: real, y: real): real {
    if x >= y then x else y
  }

  function Tripped(c: Cooldowns, slot: Slot, until: real): Cooldowns {
    c[slot := if slot in c then Greatest(c[slot], until) else until]
  }

  function Recorded(c: Cooldowns, slot: Slot, outcome: Outcome, duration: nat): Cooldowns {
    if ShouldTrip(outcome.status) then Tripped(c, slot, outcome.at + duration as real) else c
  }

  function Active(c: Cooldowns, endpoint: string, now: real): set<string> {
    set slot | slot in c && slot.endpoint == endpoint && c[slot] > now :: slot.key
  }

  function CoolingAt(c: Cooldowns, query: real): Provider -> bool {
    Cooling(Active(c, WAIT_TIME, query))
  }

  function WaitSlot(p: Provider): Slot {
    Slot(WAIT_TIME, CooldownKey(p))
  }

  function RecordedAll(c: Cooldowns, jobs: seq<Job>, fetch: Job -> Outcome, duration: nat): Cooldowns {
    if jobs == [] then c else
      var n := |jobs| - 1;
      Recorded(RecordedAll(c, jobs[..n], fetch, duration), WaitSlot(jobs[n].provider), fetch(jobs[n]), duration)
  }

  // ---- The state machine

  datatype State = State(cooldowns: Cooldowns, schedules: seq<Schedule>)

  // A poll reads the cooldowns at one time of the database clock and ticks at one time of its own. Results
  // are recorded in the order in which the requests complete; a database error cuts that short. Catalog
  // and notice requests record too.
  datatype Event =
    | Poll(query: real, now: real, fetch: Job -> Outcome, order: seq<nat>)
    | Record(slot: Slot, outcome: Outcome)
    | Load(at: real, schedules: seq<Schedule>)

  function JobsOf(st: State, e: Event): seq<Job> {
    match e
    case Poll(query, now, _, _) => Jobs(st.schedules, now, CoolingAt(st.cooldowns, query))
    case _ => []
  }

  // The jobs whose results are recorded, by their places among the jobs.
  function Finished(jobs: seq<Job>, order: seq<nat>): seq<Job> {
    if order == [] then [] else
      (if order[0] < |jobs| then [jobs[order[0]]] else []) + Finished(jobs, order[1..])
  }

  // In the order of completion: with all places in range, one for each.
  lemma {:induction false} FinishedIs(jobs: seq<Job>, order: seq<nat>)
    requires forall k :: k in order ==> k < |jobs|
    ensures |Finished(jobs, order)| == |order|
    ensures forall i :: 0 <= i < |order| ==> order[i] in order && Finished(jobs, order)[i] == jobs[order[i]]
  {
    if order != [] {
      assert order[0] in order && forall k :: k in order[1..] ==> k in order;
      FinishedIs(jobs, order[1..]);
    }
  }

  function Done(st: State, e: Event): seq<Job>
    requires e.Poll?
  {
    Finished(JobsOf(st, e), e.order)
  }

  function Step(st: State, e: Event, duration: nat): State {
    match e
    case Poll(query, now, fetch, order) =>
      State(RecordedAll(st.cooldowns, Done(st, e), fetch, duration),
            NextAll(st.schedules, now, CoolingAt(st.cooldowns, query)))
    case Record(slot, outcome) => st.(cooldowns := Recorded(st.cooldowns, slot, outcome, duration))
    case Load(_, schedules) => st.(schedules := schedules)
  }

  class Poller {
    const duration: nat
    var cooldowns: Cooldowns
    var schedules: seq<WaitSchedule>

    ghost predicate Stands(st: State)
      reads this, schedules
    {
      && cooldowns == st.cooldowns && Stand(schedules, st.schedules)
      && Distinct(schedules) && forall i :: 0 <= i < |st.schedules| ==> st.schedules[i].Valid()
    }

    constructor (duration: nat)
      ensures this.duration == duration && Stands(State(map[], []))
    {
      this.duration := duration;
      cooldowns, schedules := map[], [];
    }

    method RecordResultCooldown(slot: Slot, outcome: Outcome, ghost st: State)
      requires Stands(st)
      modifies this`cooldowns
      ensures Stands(Step(st, Record(slot, outcome), duration))
    {
      if !ShouldTrip(outcome.status) {
        return;
      }
      var until := outcome.at + duration as real;
      if slot in cooldowns {
        until := Greatest(cooldowns[slot], until);
      }
      cooldowns := cooldowns[slot := until];
    }

    method Reload(shops: seq<Shop>, maxPerMinute: nat, now: real, ghost st: State)
      requires Stands(st)
      modifies this`schedules
      ensures Stands(Step(st, Load(now, LoadedAll(shops, maxPerMinute, now)), duration)) && fresh(schedules)
    {
      LoadedAllValid(shops, maxPerMinute, now);
      ghost var all := LoadedAll(shops, maxPerMinute, now);
      assert forall i :: 0 <= i < |all| ==> all[i] in all;
      schedules := LoadWaitSchedules(shops, maxPerMinute, now);
    }

    method PollDue(query: real, now: real, fetch: Job -> Outcome, order: seq<nat>, ghost st: State)
      returns (jobs: seq<Job>)
      requires Stands(st)
      modifies this`cooldowns, schedules
      ensures Stands(Step(st, Poll(query, now, fetch, order), duration))
      ensures jobs == JobsOf(st, Poll(query, now, fetch, order))
    {
      var active := Active(cooldowns, WAIT_TIME, query);
      jobs := PollDueWaitBatches(schedules, st.schedules, active, now);
      RecordResults(Finished(jobs, order), fetch,
                    State(st.cooldowns, NextAll(st.schedules, now, CoolingAt(st.cooldowns, query))));
    }

    method RecordResults(jobs: seq<Job>, fetch: Job -> Outcome, ghost st: State)
      requires Stands(st)
      modifies this`cooldowns
      ensures Stands(st.(cooldowns := RecordedAll(st.cooldowns, jobs, fetch, duration)))
    {
      for i := 0 to |jobs|
        invariant Stands(st.(cooldowns := RecordedAll(st.cooldowns, jobs[..i], fetch, duration)))
      {
        assert jobs[..i + 1][..i] == jobs[..i];
        RecordResultCooldown(WaitSlot(jobs[i].provider), fetch(jobs[i]),
                             st.(cooldowns := RecordedAll(st.cooldowns, jobs[..i], fetch, duration)));
      }
      assert jobs[..|jobs|] == jobs;
    }
  }

  // ---- Cooldowns over every run

  function Run(st: State, events: seq<Event>, duration: nat): State
    decreases |events|
  {
    if events == [] then st else Run(Step(st, events[0], duration), events[1..], duration)
  }

  // Every slot of c is still there in d, with no earlier end.
  ghost predicate NotEarlier(c: Cooldowns, d: Cooldowns) {
    forall slot :: slot in c ==> slot in d && d[slot] >= c[slot]
  }

  lemma {:induction false} RecordedAllNotEarlier(c: Cooldowns, jobs: seq<Job>, fetch: Job -> Outcome, duration: nat)
    ensures NotEarlier(c, RecordedAll(c, jobs, fetch, duration))
  {
    if jobs != [] {
      RecordedAllNotEarlier(c, jobs[..|jobs| - 1], fetch, duration);
    }
  }

  lemma StepNotEarlier(st: State, e: Event, duration: nat)
    ensures NotEarlier(st.cooldowns, Step(st, e, duration).cooldowns)
  {
    if e.Poll? {
      RecordedAllNotEarlier(st.cooldowns, Done(st, e), e.fetch, duration);
    }
  }

  // No cooldown ever ends earlier than it once was to, through polls, records and reloads.
  lemma {:induction false} CooldownsNeverShorten(st: State, events: seq<Event>, duration: nat)
    ensures NotEarlier(st.cooldowns, Run(st, events, duration).cooldowns)
    decreases |events|
  {
    if events != [] {
      StepNotEarlier(st, events[0], duration);
      CooldownsNeverShorten(Step(st, events[0], duration), events[1..], duration);
    }
  }

  ghost predicate NoJobFor(jobs: seq<Job>, p: Provider) {
    forall job :: job in jobs ==> job.provider != p
  }

  // No poll of the run that reads the cooldowns before `until` sends anything to p.
  ghost predicate QuietUntil(st: State, events: seq<Event>, duration: nat, p: Provider, until: real)
    decreases |events|
  {
    events == []
    || ((events[0].Poll? && events[0].query < until ==> NoJobFor(JobsOf(st, events[0]), p))
        && QuietUntil(Step(st, events[0], duration), events[1..], duration, p, until))
  }

  lemma {:induction false} NoJobWhileActive(schedules: seq<Schedule>, now: real, cooling: Provider -> bool, p: Provider)
    requires cooling(p)
    ensures NoJobFor(Jobs(schedules, now, cooling), p)
  {
    if schedules != [] {
      NoJobWhileActive(schedules[..|schedules| - 1], now, cooling, p);
    }
  }

  lemma {:induction false} CoolingIsQuiet(st: State, events: seq<Event>, duration: nat, p: Provider, until: real)
    requires WaitSlot(p) in st.cooldowns && st.cooldowns[WaitSlot(p)] >= until
    ensures QuietUntil(st, events, duration, p, until)
    decreases |events|
  {
    if events != [] {
      var e := events[0];
      if e.Poll? && e.query < until {
        var cooling := CoolingAt(st.cooldowns, e.query);
        assert WaitSlot(p).key in Active(st.cooldowns, WAIT_TIME, e.query);
        NoJobWhileActive(st.schedules, e.now, cooling, p);
      }
      StepNotEarlier(st, e, duration);
      CoolingIsQuiet(Step(st, e, duration), events[1..], duration, p, until);
    }
  }

  // A denial: forbidden, method not allowed, too many requests.
  predicate Denied(outcome: Outcome) {
    outcome.status.Some? && outcome.status.value in {403, 405, 429}
  }

  // A denial holds its slot until its own end, or the one it had if that is later; nothing else changes.
  lemma RecordedIs(c: Cooldowns, slot: Slot, outcome: Outcome, duration: nat)
    ensures var after, until := Recorded(c, slot, outcome, duration), outcome.at + duration as real;
            && (!Denied(outcome) ==> after == c)
            && (Denied(outcome) ==> slot in after)
            && (Denied(outcome) && slot in c && c[slot] > until ==> after[slot] == c[slot])
            && (Denied(outcome) && !(slot in c && c[slot] > until) ==> after[slot] == until)
            && (forall other :: other != slot ==> (other in after <==> other in c))
            && (forall other :: other != slot && other in c ==> after[other] == c[other])
  {
  }

  // A denial that the event records for the slot, and that ends then.
  ghost predicate EndsBy(st: State, e: Event, duration: nat, slot: Slot, until: real) {
    match e
    case Poll(_, _, fetch, _) => exists job :: job in Done(st, e) && DeniedJob(job, fetch, duration, slot, until)
    case Record(own, outcome) => own == slot && Denied(outcome) && until == outcome.at + duration as real
    case Load(_, _) => false
  }

  ghost predicate DeniedJob(job: Job, fetch: Job -> Outcome, duration: nat, slot: Slot, until: real) {
    WaitSlot(job.provider) == slot && Denied(fetch(job)) && until == fetch(job).at + duration as real
  }

  ghost predicate EverEndsBy(st: State, events: seq<Event>, duration: nat, slot: Slot, until: real)
    decreases |events|
  {
    && events != []
    && (EndsBy(st, events[0], duration, slot, until)
        || EverEndsBy(Step(st, events[0], duration), events[1..], duration, slot, until))
  }

  lemma {:induction false} RecordedAllEnds(c: Cooldowns, jobs: seq<Job>, fetch: Job -> Outcome, duration: nat,
      slot: Slot)
    requires slot in RecordedAll(c, jobs, fetch, duration)
    ensures var until := RecordedAll(c, jobs, fetch, duration)[slot];
            || (slot in c && until == c[slot])
            || exists job :: job in jobs && DeniedJob(job, fetch, duration, slot, until)
  {
    if jobs != [] {
      var n := |jobs| - 1;
      var before, until := RecordedAll(c, jobs[..n], fetch, duration), RecordedAll(c, jobs, fetch, duration)[slot];
      RecordedIs(before, WaitSlot(jobs[n].provider), fetch(jobs[n]), duration);
      if DeniedJob(jobs[n], fetch, duration, slot, until) {
        assert jobs[n] in jobs;
      } else {
        RecordedAllEnds(c, jobs[..n], fetch, duration, slot);
        if job :| job in jobs[..n] && DeniedJob(job, fetch, duration, slot, until) {
          assert job in jobs;
        }
      }
    }
  }

  lemma StepEnds(st: State, e: Event, duration: nat, slot: Slot)
    requires slot in Step(st, e, duration).cooldowns
    ensures var until := Step(st, e, duration).cooldowns[slot];
            (slot in st.cooldowns && until == st.cooldowns[slot]) || EndsBy(st, e, duration, slot, until)
  {
    match e
    case Poll(_, _, fetch, _) => RecordedAllEnds(st.cooldowns, Done(st, e), fetch, duration, slot);
    case Record(own, outcome) => RecordedIs(st.cooldowns, own, outcome, duration);
    case Load(_, _) =>
  }

  // No cooldown is made up or drawn out: in every run each ends when it did at the start, or as long after a
  // recorded 403, 405 or 429 of its own as configured.
  lemma {:induction false} CooldownsComeFromDenials(st: State, events: seq<Event>, duration: nat, slot: Slot)
    requires slot in Run(st, events, duration).cooldowns
    ensures var until := Run(st, events, duration).cooldowns[slot];
            (slot in st.cooldowns && until == st.cooldowns[slot]) || EverEndsBy(st, events, duration, slot, until)
    decreases |events|
  {
    if events != [] {
      var next := Step(st, events[0], duration);
      CooldownsComeFromDenials(next, events[1..], duration, slot);
      if slot in next.cooldowns {
        StepEnds(st, events[0], duration, slot);
      }
    }
  }

  // A poll sends a schedule's next batch exactly if it is due and its provider has no cooldown that ends
  // after the cooldowns are read.
  lemma PollSendsIff(st: State, query: real, now: real, s: Schedule)
    requires s.Valid()
    ensures JobOf(s, TickFor(s, now, CoolingAt(st.cooldowns, query))) != [] <==>
              && s.nextDue <= now
              && !(Slot("wait_time", CooldownKey(s.provider)) in st.cooldowns
                   && st.cooldowns[Slot("wait_time", CooldownKey(s.provider))] > query)
  {
    ActiveKey(st.cooldowns, WAIT_TIME, query, CooldownKey(s.provider));
  }

  lemma {:induction false} DenialRecorded(c: Cooldowns, jobs: seq<Job>, fetch: Job -> Outcome, duration: nat, job: Job)
    requires job in jobs && Denied(fetch(job))
    ensures var d, slot := RecordedAll(c, jobs, fetch, duration), WaitSlot(job.provider);
            slot in d && d[slot] >= fetch(job).at + duration as real
  {
    var n := |jobs| - 1;
    RecordedIs(RecordedAll(c, jobs[..n], fetch, duration), WaitSlot(jobs[n].provider), fetch(jobs[n]), duration);
    if jobs[n] != job {
      assert jobs == jobs[..n] + [jobs[n]];
      DenialRecorded(c, jobs[..n], fetch, duration, job);
    }
  }

  // Once a wait request was denied (403, 405 or 429) and that is recorded, nothing is sent to its
  // provider for the full cooldown, whatever happens: other polls, other records, reloads.
  lemma DeniedProviderIsLeftAlone(st: State, e: Event, rest: seq<Event>, duration: nat, job: Job)
    requires e.Poll? && job in Done(st, e) && Denied(e.fetch(job))
    ensures QuietUntil(Step(st, e, duration), rest, duration, job.provider, e.fetch(job).at + duration as real)
  {
    DenialRecorded(st.cooldowns, Done(st, e), e.fetch, duration, job);
    assert Step(st, e, duration).cooldowns == RecordedAll(st.cooldowns, Done(st, e), e.fetch, duration);
    CoolingIsQuiet(Step(st, e, duration), rest, duration, job.provider, e.fetch(job).at + duration as real);
  }

  lemma ActiveKey(c: Cooldowns, endpoint: string, now: real, key: string)
    ensures key in Active(c, endpoint, now) <==> Slot(endpoint, key) in c && c[Slot(endpoint, key)] > now
  {
    if key in Active(c, endpoint, now) {
      var slot :| slot in c && slot.endpoint == endpoint && c[slot] > now && slot.key == key;
      assert slot == Slot(endpoint, key);
    }
  }

  // A denial from one provider does not hold back any other.
  lemma OthersUnaffected(c: Cooldowns, p: Provider, q: Provider, outcome: Outcome, duration: nat, now: real)
    requires p != q
    ensures CooldownKey(q) in Active(Recorded(c, WaitSlot(p), outcome, duration), WAIT_TIME, now)
            <==> CooldownKey(q) in Active(c, WAIT_TIME, now)
  {
    if CooldownKey(p) == CooldownKey(q) {
      CooldownKeyInjective(p, q);
    }
    ActiveKey(c, WAIT_TIME, now, CooldownKey(q));
    ActiveKey(Recorded(c, WaitSlot(p), outcome, duration), WAIT_TIME, now, CooldownKey(q));
  }

  // ---- The pacing results hold in this machine, between two loads

  ghost predicate NoLoad(events: seq<Event>) {
    forall e :: e in events ==> !e.Load?
  }

  // The ticks that schedule i sees in a run.
  function TicksSeen(st: State, events: seq<Event>, duration: nat, i: nat): seq<Tick>
    requires i < |st.schedules| && NoLoad(events)
    decreases |events|
  {
    if events == [] then [] else
      var e := events[0];
      assert e in events;
      var rest := TicksSeen(Step(st, e, duration), events[1..], duration, i);
      if e.Poll? then [TickFor(st.schedules[i], e.now, CoolingAt(st.cooldowns, e.query))] + rest else rest
  }

  // The batches that the polls of a run send for schedule i.
  function Sent(st: State, events: seq<Event>, duration: nat, i: nat): seq<Dispatch>
    requires i < |st.schedules| && NoLoad(events)
    decreases |events|
  {
    if events == [] then [] else
      var e := events[0];
      assert e in events;
      var rest := Sent(Step(st, e, duration), events[1..], duration, i);
      if e.Poll? && JobOf(st.schedules[i], TickFor(st.schedules[i], e.now, CoolingAt(st.cooldowns, e.query))) != []
      then [Dispatch(e.now, st.schedules[i].nextBatch)] + rest
      else rest
  }

  lemma {:induction false} SentIsDispatches(st: State, events: seq<Event>, duration: nat, i: nat)
    requires i < |st.schedules| && NoLoad(events) && st.schedules[i].Valid()
    ensures Sent(st, events, duration, i) == Dispatches(st.schedules[i], TicksSeen(st, events, duration, i))
    decreases |events|
  {
    if events != [] {
      var e, s, next := events[0], st.schedules[i], Step(st, events[0], duration);
      assert e in events;
      if e.Poll? {
        var tick := TickFor(s, e.now, CoolingAt(st.cooldowns, e.query));
        PolledValid(s, tick);
        assert next.schedules[i] == Polled(s, tick);
        SentIsDispatches(next, events[1..], duration, i);
        var seen := TicksSeen(next, events[1..], duration, i);
        assert ([tick] + seen)[1..] == seen;
      } else {
        SentIsDispatches(next, events[1..], duration, i);
      }
    }
  }
}
