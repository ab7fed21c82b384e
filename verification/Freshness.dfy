/** Which batches are asked for at all when schedules are loaded again and again. */
module Freshness {
  import opened WaitSchedule
  import opened Pacing
  import opened Cooldown

  // A schedule as a load leaves it, with a batch k.
  ghost predicate Fresh(s: Schedule, k: nat) {
    s.Valid() && s.nextBatch == 0 && k < |s.batches|
  }

  ghost predicate Includes(ds: seq<Dispatch>, k: nat) {
    exists d :: d in ds && d.batch == k
  }

  lemma {:induction false} TurnBounds(x: nat, n: nat)
    requires n > 0
    ensures Turn(x, n) <= x && (x < n ==> Turn(x, n) == x)
  {
    if x >= n {
      TurnBounds(x - n, n);
    }
  }

  // After a load batch k is sent exactly if more than k batches are.
  lemma IncludesIff(s: Schedule, ticks: seq<Tick>, k: nat)
    requires Fresh(s, k)
    ensures Includes(Dispatches(s, ticks), k) <==> |Dispatches(s, ticks)| > k
  {
    var ds, n := Dispatches(s, ticks), |s.batches|;
    if |ds| > k {
      RoundRobin(s, ticks, k);
      TurnBounds(k, n);
      assert ds[k] in ds;
    }
    if Includes(ds, k) {
      var d :| d in ds && d.batch == k;
      var i :| 0 <= i < |ds| && ds[i] == d;
      RoundRobin(s, ticks, i);
      TurnBounds(i, n);
    }
  }

  ghost predicate Before(ticks: seq<Tick>, end: real) {
    forall t :: t in ticks ==> t.now < end
  }

  lemma {:induction false} DispatchesBefore(s: Schedule, ticks: seq<Tick>, end: real)
    requires Before(ticks, end)
    ensures forall d :: d in Dispatches(s, ticks) ==> d.at < end
    decreases |ticks|
  {
    if ticks != [] {
      assert ticks[0] in ticks;
      DispatchesBefore(Polled(s, ticks[0]), ticks[1..], end);
    }
  }

  // A tick whenever the schedule is due, count times.
  function DueTicks(due: real, spacing: real, count: nat): seq<Tick>
    decreases count
  {
    if count == 0 then [] else [Tick(due, false)] + DueTicks(due + spacing, spacing, count - 1)
  }

  lemma {:induction false} DueTicksDispatch(s: Schedule, count: nat)
    requires s.Valid()
    ensures |Dispatches(s, DueTicks(s.nextDue, s.spacing, count))| == count
    decreases count
  {
    if count > 0 {
      var tick := Tick(s.nextDue, false);
      var rest := DueTicks(s.nextDue + s.spacing, s.spacing, count - 1);
      DueTicksDispatch(Polled(s, tick), count - 1);
      assert ([tick] + rest)[1..] == rest;
    }
  }

  lemma {:induction false} DueTicksBefore(due: real, spacing: real, k: nat, end: real)
    requires spacing >= 0.0 && due + Times(k, spacing) < end
    ensures Before(DueTicks(due, spacing, k + 1), end)
    decreases k
  {
    TimesOrder(0, k, spacing);
    var rest := DueTicks(due + spacing, spacing, k);
    if k == 0 {
      assert rest == [];
    } else {
      DueTicksBefore(due + spacing, spacing, k - 1, end);
    }
    assert DueTicks(due, spacing, k + 1) == [Tick(due, false)] + rest;
  }

  // Batch k can be sent before a time, by some ticks, exactly if the schedule is due more than k spacings
  // before it.
  lemma ReachedIff(s: Schedule, end: real, k: nat)
    requires Fresh(s, k)
    ensures (exists ticks :: Before(ticks, end) && Includes(Dispatches(s, ticks), k))
            <==> s.nextDue + Times(k, s.spacing) < end
  {
    if s.nextDue + Times(k, s.spacing) < end {
      var ticks := DueTicks(s.nextDue, s.spacing, k + 1);
      DueTicksDispatch(s, k + 1);
      DueTicksBefore(s.nextDue, s.spacing, k, end);
      IncludesIff(s, ticks, k);
    }
    forall ticks | Before(ticks, end) && Includes(Dispatches(s, ticks), k)
      ensures s.nextDue + Times(k, s.spacing) < end
    {
      TooEarly(s, ticks, end, k);
    }
  }

  lemma TooEarly(s: Schedule, ticks: seq<Tick>, end: real, k: nat)
    requires Fresh(s, k) && Before(ticks, end) && Includes(Dispatches(s, ticks), k)
    ensures s.nextDue + Times(k, s.spacing) < end
  {
    var ds := Dispatches(s, ticks);
    IncludesIff(s, ticks, k);
    DispatchesPaced(s, ticks, 0, k);
    DispatchesBefore(s, ticks, end);
    assert ds[k] in ds;
  }

  // ---- Runs with loads

  // What a load leaves of a provider's schedule, and the time of the next load.
  datatype Stretch = Stretch(loaded: Schedule, end: real)

  // One sequence of ticks for each stretch, all before its end.
  ghost predicate Fit(stretches: seq<Stretch>, runs: seq<seq<Tick>>) {
    |runs| == |stretches| && forall i :: 0 <= i < |runs| ==> Before(runs[i], stretches[i].end)
  }

  ghost predicate EverSends(stretches: seq<Stretch>, runs: seq<seq<Tick>>, k: nat)
    requires |runs| == |stretches|
  {
    exists i :: 0 <= i < |runs| && Includes(Dispatches(stretches[i].loaded, runs[i]), k)
  }

  // Some ticks get batch k sent in a run with these loads exactly if one of them is due more than k spacings
  // before the next: if every load comes sooner, batch k is never sent.
  lemma EverSentIff(stretches: seq<Stretch>, k: nat)
    requires forall s :: s in stretches ==> Fresh(s.loaded, k)
    ensures (exists runs :: Fit(stretches, runs) && EverSends(stretches, runs, k))
            <==> exists s :: s in stretches && s.loaded.nextDue + Times(k, s.loaded.spacing) < s.end
  {
    forall runs | Fit(stretches, runs) && EverSends(stretches, runs, k)
      ensures exists s :: s in stretches && s.loaded.nextDue + Times(k, s.loaded.spacing) < s.end
    {
      var i :| 0 <= i < |runs| && Includes(Dispatches(stretches[i].loaded, runs[i]), k);
      assert stretches[i] in stretches;
      TooEarly(stretches[i].loaded, runs[i], stretches[i].end, k);
    }
    if s :| s in stretches && s.loaded.nextDue + Times(k, s.loaded.spacing) < s.end {
      var i :| 0 <= i < |stretches| && stretches[i] == s;
      ReachedIff(s.loaded, s.end, k);
      var ticks :| Before(ticks, s.end) && Includes(Dispatches(s.loaded, ticks), k);
      var runs := seq(|stretches|, j requires 0 <= j < |stretches| => if j == i then ticks else []);
      assert runs[i] == ticks;
      assert Fit(stretches, runs) && EverSends(stretches, runs, k);
    }
  }

  // In the poller as a whole: from a load to a time at most k spacings after the schedule's due time, no poll
  // sends batch k of it, whatever else happens.
  lemma NotSentBefore(st: State, events: seq<Event>, duration: nat, i: nat, k: nat, end: real)
    requires i < |st.schedules| && NoLoad(events) && Fresh(st.schedules[i], k)
    requires end <= st.schedules[i].nextDue + Times(k, st.schedules[i].spacing)
    requires forall e :: e in events && e.Poll? ==> e.now < end
    ensures !Includes(Sent(st, events, duration, i), k)
  {
    SentIsDispatches(st, events, duration, i);
    TicksSeenBefore(st, events, duration, i, end);
    if Includes(Sent(st, events, duration, i), k) {
      TooEarly(st.schedules[i], TicksSeen(st, events, duration, i), end, k);
    }
  }

  lemma {:induction false} TicksSeenBefore(st: State, events: seq<Event>, duration: nat, i: nat, end: real)
    requires i < |st.schedules| && NoLoad(events)
    requires forall e :: e in events && e.Poll? ==> e.now < end
    ensures Before(TicksSeen(st, events, duration, i), end)
    decreases |events|
  {
    if events != [] {
      assert events[0] in events;
      TicksSeenBefore(Step(st, events[0], duration), events[1..], duration, i, end);
    }
  }
}
