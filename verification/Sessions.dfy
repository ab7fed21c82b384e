/** The SSH front end's session limit: permits, live sessions and handlers in every interleaving. */
module Sessions {
  // What the server shares, and what is under way. A handler is one client connection; its calls borrow it
  // exclusively, so it has at most one open in flight and cannot be dropped during one. Dropping a handler
  // only spawns a task that removes its session later.
  datatype State = State(
    free: nat,                  // permits left in the semaphore
    sessions: map<nat, nat>,    // session of a handler: the channel it belongs to
    opening: map<nat, nat>,     // opens that hold a permit and wait for the lock
    handlers: set<nat>,         // live handlers
    removals: set<nat>,         // spawned removals that have not run
    nextId: nat)

  datatype Event =
    | NewClient
    | OpenBegin(id: nat, channel: nat)   // channel_open_session up to the permit
    | OpenEnd(id: nat)                   // its insertion into the map
    | OpenAbort(id: nat)                 // the call is cancelled while it waits
    | Close(id: nat)                     // channel_close, exec_request, or 'q': by the handler
    | RenderFailed(id: nat)              // by any render, also the refresh loop's
    | DropHandler(id: nat)
    | RunRemoval(id: nat)

  // Whether the event can happen; one that cannot leaves the state alone.
  predicate Enabled(st: State, e: Event) {
    match e
    case NewClient => true
    case OpenBegin(id, _) => id in st.handlers && id !in st.opening
    case OpenEnd(id) => id in st.opening
    case OpenAbort(id) => id in st.opening
    case Close(id) => id in st.handlers && id !in st.opening
    case RenderFailed(_) => true
    case DropHandler(id) => id in st.handlers && id !in st.opening
    case RunRemoval(id) => id in st.removals
  }

  // Removing an entry drops the permit it owns.
  function Removed(st: State, id: nat): State {
    if id in st.sessions then st.(sessions := st.sessions - {id}, free := st.free + 1) else st
  }

  function Step(st: State, e: Event): State {
    if !Enabled(st, e) then st else
      match e
      case NewClient => st.(handlers := st.handlers + {st.nextId}, nextId := st.nextId + 1)
      case OpenBegin(id, channel) =>
        if st.free == 0 then st else st.(free := st.free - 1, opening := st.opening[id := channel])
      case OpenEnd(id) =>
        // a session of the same handler is replaced, and its permit dropped
        var cleared := Removed(st, id);
        cleared.(sessions := cleared.sessions[id := st.opening[id]], opening := st.opening - {id})
      case OpenAbort(id) => st.(opening := st.opening - {id}, free := st.free + 1)
      case Close(id) => Removed(st, id)
      case RenderFailed(id) => Removed(st, id)
      case DropHandler(id) => st.(handlers := st.handlers - {id}, removals := st.removals + {id})
      case RunRemoval(id) => Removed(st.(removals := st.removals - {id}), id)
  }

  ghost predicate Valid(st: State, maxSessions: nat) {
    // no permit is lost or made up
    && st.free + |st.sessions| + |st.opening| == maxSessions
    // a session has a handler, or a removal on its way
    && (forall id :: id in st.sessions ==> id in st.handlers || id in st.removals)
    && (forall id :: id in st.opening ==> id in st.handlers)
    // a removal is for a handler that is gone for good
    && (forall id :: id in st.removals ==> id !in st.handlers)
    && (forall id :: id in st.handlers || id in st.removals ==> id < st.nextId)
  }

  lemma MapMinus<T>(m: map<nat, T>, id: nat)
    requires id in m
    ensures |m - {id}| == |m| - 1
  {
    assert (m - {id}).Keys == m.Keys - {id};
    assert |m.Keys| == |m| && |(m - {id}).Keys| == |m - {id}|;
  }

  lemma MapPlus<T>(m: map<nat, T>, id: nat, x: T)
    requires id !in m
    ensures |m[id := x]| == |m| + 1
  {
    assert m[id := x].Keys == m.Keys + {id};
    assert |m.Keys| == |m| && |m[id := x].Keys| == |m[id := x]|;
  }

  lemma RemovedIs(st: State, id: nat)
    ensures Removed(st, id).free + |Removed(st, id).sessions| == st.free + |st.sessions|
    ensures id !in Removed(st, id).sessions
    ensures forall other :: other in Removed(st, id).sessions ==> other in st.sessions
  {
    if id in st.sessions {
      MapMinus(st.sessions, id);
    }
  }

  // What ends a session: a close, an exec or a quit by its handler, a failed render, a spawned removal.
  predicate EndsSession(st: State, e: Event, id: nat) {
    match e
    case Close(own) => own == id && id in st.handlers && id !in st.opening
    case RenderFailed(own) => own == id
    case RunRemoval(own) => own == id && id in st.removals
    case _ => false
  }

  // Such an event takes the session out and frees its permit; of what the others hold it changes nothing.
  lemma SessionEnds(st: State, e: Event, id: nat)
    requires EndsSession(st, e, id)
    ensures var after := Step(st, e);
            && id !in after.sessions
            && after.free == st.free + (if id in st.sessions then 1 else 0)
            && (forall other :: other != id ==> (other in after.sessions <==> other in st.sessions))
            && (forall other :: other != id && other in st.sessions ==> after.sessions[other] == st.sessions[other])
            && after.opening == st.opening
  {
  }

  // And nothing else takes a session out.
  lemma OnlyEndsRemove(st: State, e: Event, id: nat)
    requires id in st.sessions && id !in Step(st, e).sessions
    ensures EndsSession(st, e, id)
  {
  }

  // A session that an open brings belongs to the channel it was opened for, and takes the open's permit.
  lemma OpenedIs(st: State, id: nat)
    requires id in st.opening
    ensures var after := Step(st, OpenEnd(id));
            && id in after.sessions && after.sessions[id] == st.opening[id] && id !in after.opening
            && after.free == st.free + (if id in st.sessions then 1 else 0)
  {
  }

  // An open that is cancelled gives its permit back.
  lemma CancelledIs(st: State, id: nat)
    requires id in st.opening
    ensures var after := Step(st, OpenAbort(id));
            id !in after.opening && after.free == st.free + 1 && after.sessions == st.sessions
  {
  }

  // Once its handler is dropped, the removal that it spawned ends the session whenever it runs, and it stays
  // away.
  lemma DroppedIsRemoved(st: State, id: nat, between: seq<Event>, rest: seq<Event>, maxSessions: nat)
    requires Valid(st, maxSessions) && id in st.handlers && id !in st.opening
    requires forall e :: e in between ==> e != RunRemoval(id)
    ensures var dropped := Run(Step(st, DropHandler(id)), between);
            && id in dropped.removals && id !in dropped.handlers
            && id !in Run(Step(dropped, RunRemoval(id)), rest).sessions
  {
    var waiting := Step(st, DropHandler(id));
    StepKeeps(st, DropHandler(id), maxSessions);
    RemovalWaits(waiting, id, between, maxSessions);
    var dropped := Run(waiting, between);
    StepKeeps(dropped, RunRemoval(id), maxSessions);
    assert id < dropped.nextId && id !in dropped.handlers;
    GoneForGood(Step(dropped, RunRemoval(id)), rest, maxSessions, id);
  }

  lemma {:induction false} RemovalWaits(st: State, id: nat, events: seq<Event>, maxSessions: nat)
    requires Valid(st, maxSessions) && id in st.removals
    requires forall e :: e in events ==> e != RunRemoval(id)
    ensures Valid(Run(st, events), maxSessions) && id in Run(st, events).removals
    decreases |events|
  {
    if events != [] {
      assert events[0] in events && forall e :: e in events[1..] ==> e in events;
      assert events[0].RunRemoval? ==> events[0].id != id;
      StepKeeps(st, events[0], maxSessions);
      RemovalWaits(Step(st, events[0]), id, events[1..], maxSessions);
    }
  }

  lemma RemovedKeeps(st: State, id: nat, maxSessions: nat)
    requires Valid(st, maxSessions)
    ensures Valid(Removed(st, id), maxSessions)
  {
    RemovedIs(st, id);
  }

  lemma OpenKeeps(st: State, e: Event, maxSessions: nat)
    requires Valid(st, maxSessions) && Enabled(st, e) && (e.OpenBegin? || e.OpenAbort?)
    ensures Valid(Step(st, e), maxSessions)
  {
    if e.OpenBegin? {
      MapPlus(st.opening, e.id, e.channel);
    } else {
      MapMinus(st.opening, e.id);
    }
  }

  lemma OpenEndKeeps(st: State, id: nat, maxSessions: nat)
    requires Valid(st, maxSessions) && id in st.opening
    ensures Valid(Step(st, OpenEnd(id)), maxSessions)
  {
    RemovedIs(st, id);
    MapMinus(st.opening, id);
    MapPlus(Removed(st, id).sessions, id, st.opening[id]);
  }

  // A removal task only takes out what no live handler owns.
  lemma RemovalKeeps(st: State, id: nat, maxSessions: nat)
    requires Valid(st, maxSessions) && id in st.removals
    ensures Valid(Step(st, RunRemoval(id)), maxSessions)
  {
    RemovedIs(st.(removals := st.removals - {id}), id);
  }

  lemma StepKeeps(st: State, e: Event, maxSessions: nat)
    requires Valid(st, maxSessions)
    ensures Valid(Step(st, e), maxSessions)
  {
    if Enabled(st, e) {
      match e
      case NewClient =>
      case OpenBegin(_, _) => OpenKeeps(st, e, maxSessions);
      case OpenEnd(id) => OpenEndKeeps(st, id, maxSessions);
      case OpenAbort(_) => OpenKeeps(st, e, maxSessions);
      case Close(id) => RemovedKeeps(st, id, maxSessions);
      case RenderFailed(id) => RemovedKeeps(st, id, maxSessions);
      case DropHandler(_) =>
      case RunRemoval(id) => RemovalKeeps(st, id, maxSessions);
    }
  }

  function Initial(maxSessions: nat): State {
    State(maxSessions, map[], map[], {}, {}, 1)
  }

  function Run(st: State, events: seq<Event>): State
    decreases |events|
  {
    if events == [] then st else Run(Step(st, events[0]), events[1..])
  }

  lemma {:induction false} RunKeeps(st: State, events: seq<Event>, maxSessions: nat)
    requires Valid(st, maxSessions)
    ensures Valid(Run(st, events), maxSessions)
    decreases |events|
  {
    if events != [] {
      StepKeeps(st, events[0], maxSessions);
      RunKeeps(Step(st, events[0]), events[1..], maxSessions);
    }
  }

  lemma AllFree(st: State, maxSessions: nat)
    requires Valid(st, maxSessions)
    ensures st.handlers == {} && st.removals == {} ==>
              st.sessions == map[] && st.opening == map[] && st.free == maxSessions
  {
    if st.handlers == {} && st.removals == {} {
      assert st.sessions.Keys == {} && st.opening.Keys == {};
    }
  }

  // In every interleaving the permits add up, so sessions never exceed the limit; and when all handlers
  // are dropped and their removals have run, every permit is free again.
  lemma PermitsAddUp(events: seq<Event>, maxSessions: nat)
    ensures var st := Run(Initial(maxSessions), events);
            && st.free + |st.sessions| + |st.opening| == maxSessions
            && |st.sessions| <= maxSessions
            && (st.handlers == {} && st.removals == {} ==>
                  st.sessions == map[] && st.opening == map[] && st.free == maxSessions)
  {
    RunKeeps(Initial(maxSessions), events, maxSessions);
    AllFree(Run(Initial(maxSessions), events), maxSessions);
  }

  // An open is turned away exactly when all permits are with sessions and other opens.
  lemma RejectedIffFull(events: seq<Event>, maxSessions: nat, id: nat, channel: nat)
    ensures var st := Run(Initial(maxSessions), events);
            var after := Step(st, OpenBegin(id, channel));
            id in st.handlers && id !in st.opening ==>
              && (id !in after.opening <==> |st.sessions| + |st.opening| == maxSessions)
              && (id in after.opening ==> after.opening[id] == channel && after.free == st.free - 1)
  {
    RunKeeps(Initial(maxSessions), events, maxSessions);
  }

  // The session of a dropped handler cannot come back after its removal has run.
  lemma {:induction false} GoneForGood(st: State, events: seq<Event>, maxSessions: nat, id: nat)
    requires Valid(st, maxSessions)
    requires id < st.nextId && id !in st.handlers && id !in st.removals
    ensures id !in Run(st, events).sessions
    decreases |events|
  {
    if events != [] {
      StepKeeps(st, events[0], maxSessions);
      GoneForGood(Step(st, events[0]), events[1..], maxSessions, id);
    }
  }

  // ---- The handlers' code

  class Shared {
    const maxSessions: nat
    var free: nat
    var sessions: map<nat, nat>
    var opening: map<nat, nat>
    var handlers: set<nat>
    var removals: set<nat>
    var nextId: nat

    function View(): State
      reads this
    {
      State(free, sessions, opening, handlers, removals, nextId)
    }

    constructor (maxSessions: nat)
      ensures this.maxSessions == maxSessions && View() == Initial(maxSessions) && Valid(View(), maxSessions)
    {
      this.maxSessions := maxSessions;
      free, sessions, opening, handlers, removals, nextId := maxSessions, map[], map[], {}, {}, 1;
    }

    method NewHandler() returns (id: nat)
      modifies this
      ensures View() == Step(old(View()), NewClient) && id == old(nextId)
    {
      id := nextId;
      nextId := nextId + 1;
      handlers := handlers + {id};
    }

    // channel_open_session, up to where it waits for the lock
    method TryAcquire(id: nat, channel: nat) returns (acquired: bool)
      requires Enabled(View(), OpenBegin(id, channel))
      modifies this
      ensures View() == Step(old(View()), OpenBegin(id, channel))
      ensures acquired <==> old(free) > 0
    {
      acquired := free > 0;
      if acquired {
        free := free - 1;
        opening := opening[id := channel];
      }
    }

    // ... and from there
    method InsertSession(id: nat)
      requires Enabled(View(), OpenEnd(id))
      modifies this
      ensures View() == Step(old(View()), OpenEnd(id))
      ensures id in sessions && sessions[id] == old(opening)[id]
    {
      var channel := opening[id];
      opening := opening - {id};
      if id in sessions {
        sessions := sessions - {id};
        free := free + 1;
      }
      sessions := sessions[id := channel];
    }

    method CancelOpen(id: nat)
      requires Enabled(View(), OpenAbort(id))
      modifies this
      ensures View() == Step(old(View()), OpenAbort(id))
    {
      opening := opening - {id};
      free := free + 1;
    }

    // sessions.lock().await.remove(&id), as a close, an exec, a quit, a failed render or a removal does it
    method RemoveSession(id: nat)
      modifies this
      ensures View() == Removed(old(View()), id)
    {
      if id in sessions {
        sessions := sessions - {id};
        free := free + 1;
      }
    }

    method Drop(id: nat)
      requires Enabled(View(), DropHandler(id))
      modifies this
      ensures View() == Step(old(View()), DropHandler(id))
    {
      handlers := handlers - {id};
      removals := removals + {id};
    }

    method RunSpawned(id: nat)
      requires Enabled(View(), RunRemoval(id))
      modifies this
      ensures View() == Step(old(View()), RunRemoval(id))
    {
      removals := removals - {id};
      RemoveSession(id);
    }

    // Whatever happens next; what cannot happen does nothing.
    method Handle(e: Event)
      modifies this
      ensures View() == Step(old(View()), e)
    {
      if !Enabled(View(), e) {
        return;
      }
      match e {
        case NewClient => var id := NewHandler();
        case OpenBegin(id, channel) => var acquired := TryAcquire(id, channel);
        case OpenEnd(id) => InsertSession(id);
        case OpenAbort(id) => CancelOpen(id);
        case Close(id) => RemoveSession(id);
        case RenderFailed(id) => RemoveSession(id);
        case DropHandler(id) => Drop(id);
        case RunRemoval(id) => RunSpawned(id);
      }
    }

    // Any interleaving of the handlers' code: sessions stay within the limit, and with all handlers dropped
    // and their removals run every permit is free again.
    method Serve(events: seq<Event>)
      requires Valid(View(), maxSessions)
      modifies this
      ensures View() == Run(old(View()), events) && Valid(View(), maxSessions)
      ensures free + |sessions| + |opening| == maxSessions && |sessions| <= maxSessions
      ensures handlers == {} && removals == {} ==> sessions == map[] && opening == map[] && free == maxSessions
      decreases |events|
    {
      if events == [] {
        AllFree(View(), maxSessions);
        return;
      }
      StepKeeps(View(), events[0], maxSessions);
      Handle(events[0]);
      Serve(events[1..]);
    }
  }
}
