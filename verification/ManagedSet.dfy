/** `refresh_managed_locations`: bringing the managed shops in line with regions and overrides. */
module ManagedSet {
  import opened Wrappers
  import opened Sequences
  import StableSort

  datatype Location = Location(enabled: Option<bool>, latitude: Option<real>, longitude: Option<real>)
  datatype Region = Region(title: string, latitude: real, longitude: real, radius: real, enabled: bool)
  datatype Override = Override(managed: bool, note: Option<string>)
  datatype Wanted = Wanted(source: string, reason: string)
  datatype Managed = Managed(source: string, reason: Option<string>, active: bool, updatedAt: int)

  const FROM_REGION := "region"
  const MANUAL := "manual"

  // What the database provides: the distance of two points, and the order of text.
  datatype Database = Database(miles: (real, real, real, real) -> real, textLeq: (string, string) -> bool)

  // The tables that a refresh reads.
  datatype Inputs = Inputs(locations: map<int, Location>, regions: seq<Region>, overrides: map<int, Override>)

  function Get<T>(m: map<int, T>, id: int): Option<T> {
    if id in m then Some(m[id]) else None
  }

  // coalesce(l.is_enabled, true)
  predicate Enabled(l: Location) {
    l.enabled != Some(false)
  }

  predicate Near(db: Database, r: Region, l: Location) {
    && r.enabled && l.latitude.Some? && l.longitude.Some?
    && db.miles(r.latitude, r.longitude, l.latitude.value, l.longitude.value) <= r.radius
  }

  function LabelsNear(db: Database, regions: seq<Region>, l: Location): seq<string> {
    if regions == [] then [] else
      (if Near(db, regions[0], l) then [regions[0].title] else []) + LabelsNear(db, regions[1..], l)
  }

  function Joined(parts: seq<string>, separator: string): string {
    if parts == [] then "" else if |parts| == 1 then parts[0] else parts[0] + separator + Joined(parts[1..], separator)
  }

  // The row of region_matches for a shop.
  function RegionMatch(db: Database, t: Inputs, id: int): Option<string> {
    if id in t.locations && Enabled(t.locations[id]) && (id in t.overrides ==> t.overrides[id].managed) then
      var labels := LabelsNear(db, t.regions, t.locations[id]);
      if labels == [] then None else Some(Joined(StableSort.Sort(labels, db.textLeq), ", "))
    else None
  }

  // The row of manual_matches for a shop.
  function ManualMatch(t: Inputs, id: int): Option<string> {
    if id in t.overrides && t.overrides[id].managed && id in t.locations && Enabled(t.locations[id]) then
      Some(if t.overrides[id].note.Some? then t.overrides[id].note.value else "manual override")
    else None
  }

  // The row of the collapsed union: manual wins as source, distinct reasons are joined in order.
  function Desired(db: Database, t: Inputs, id: int): Option<Wanted> {
    match (RegionMatch(db, t, id), ManualMatch(t, id))
    case (None, None) => None
    case (Some(r), None) => Some(Wanted(FROM_REGION, r))
    case (None, Some(m)) => Some(Wanted(MANUAL, m))
    case (Some(r), Some(m)) =>
      Some(Wanted(MANUAL, Joined(if r == m then [r] else StableSort.Sort([r, m], db.textLeq), "; ")))
  }

  // ---- One row

  predicate UpToDate(row: Managed, wanted: Wanted) {
    row.source == wanted.source && row.reason == Some(wanted.reason) && row.active
  }

  // insert ... on conflict do update ... where the row differs
  function UpsertedRow(row: Option<Managed>, wanted: Option<Wanted>, now: int): Option<Managed> {
    if wanted.None? || (row.Some? && UpToDate(row.value, wanted.value)) then row
    else Some(Managed(wanted.value.source, Some(wanted.value.reason), true, now))
  }

  // update ... set is_active = false where it is active and not wanted
  function DeactivatedRow(row: Option<Managed>, wanted: Option<Wanted>, now: int): Option<Managed> {
    if row.Some? && row.value.active && wanted.None? then Some(row.value.(active := false, updatedAt := now)) else row
  }

  function RefreshedRow(row: Option<Managed>, wanted: Option<Wanted>, now: int): Option<Managed> {
    DeactivatedRow(UpsertedRow(row, wanted, now), wanted, now)
  }

  // ---- The whole table

  // Every shop's row is what the refresh makes of it.
  ghost predicate IsRefresh(db: Database, t: Inputs, before: map<int, Managed>, after: map<int, Managed>, now: int) {
    forall id :: Get(after, id) == RefreshedRow(Get(before, id), Desired(db, t, id), now)
  }

  // The shops of a list whose rows differ.
  ghost function ChangedIn(before: map<int, Managed>, after: map<int, Managed>, ids: seq<int>): set<int> {
    set id | id in ids && Get(before, id) != Get(after, id)
  }

  // A step that touches the row of one more shop changes the count by that row alone.
  lemma ChangedStep(start: map<int, Managed>, before: map<int, Managed>, after: map<int, Managed>, done: seq<int>,
      id: int)
    requires id !in done && Get(before, id) == Get(start, id)
    requires forall other :: other != id ==> Get(after, other) == Get(before, other)
    ensures |ChangedIn(start, after, done + [id])|
            == |ChangedIn(start, before, done)| + if Get(after, id) != Get(before, id) then 1 else 0
  {
    var old', new' := ChangedIn(start, before, done), ChangedIn(start, after, done + [id]);
    assert forall other :: other in done + [id] <==> other in done || other == id;
    assert new' == if Get(after, id) != Get(before, id) then old' + {id} else old';
  }

  // The database visits the rows in an order of its own; any that covers both tables will do.
  ghost predicate Covers(order: seq<int>, t: Inputs, managed: map<int, Managed>) {
    && Distinct(order)
    && (forall id :: id in t.locations ==> id in order)
    && (forall id :: id in managed ==> id in order)
  }

  class Tables {
    const db: Database
    var inputs: Inputs
    var managed: map<int, Managed>

    constructor (db: Database, inputs: Inputs, managed: map<int, Managed>)
      ensures this.db == db && this.inputs == inputs && this.managed == managed
    {
      this.db, this.inputs, this.managed := db, inputs, managed;
    }

    method UpsertOne(id: int, now: int) returns (hit: bool)
      modifies this`managed
      ensures Get(managed, id) == UpsertedRow(Get(old(managed), id), Desired(db, inputs, id), now)
      ensures forall other :: other != id ==> Get(managed, other) == Get(old(managed), other)
      ensures hit <==> Get(managed, id) != Get(old(managed), id)
    {
      var wanted := Desired(db, inputs, id);
      hit := wanted.Some? && !(id in managed && UpToDate(managed[id], wanted.value));
      if hit {
        managed := managed[id := Managed(wanted.value.source, Some(wanted.value.reason), true, now)];
      }
    }

    method Upsert(order: seq<int>, now: int) returns (changed: nat)
      requires Distinct(order)
      modifies this`managed
      ensures forall id :: Get(managed, id) ==
                if id in order then UpsertedRow(Get(old(managed), id), Desired(db, inputs, id), now)
                else Get(old(managed), id)
      ensures changed == |ChangedIn(old(managed), managed, order)|
    {
      changed := 0;
      assert ChangedIn(managed, managed, []) == {} && order[..0] == [];
      for i := 0 to |order|
        invariant forall id :: id in order[..i] ==>
                    Get(managed, id) == UpsertedRow(Get(old(managed), id), Desired(db, inputs, id), now)
        invariant forall id :: id !in order[..i] ==> Get(managed, id) == Get(old(managed), id)
        invariant changed == |ChangedIn(old(managed), managed, order[..i])|
      {
        assert order[i] !in order[..i];
        assert order[..i + 1] == order[..i] + [order[i]];
        ghost var before := managed;
        var hit := UpsertOne(order[i], now);
        ChangedStep(old(managed), before, managed, order[..i], order[i]);
        if hit {
          changed := changed + 1;
        }
      }
      assert order[..|order|] == order;
    }

    method DeactivateOne(id: int, now: int) returns (hit: bool)
      modifies this`managed
      ensures Get(managed, id) == DeactivatedRow(Get(old(managed), id), Desired(db, inputs, id), now)
      ensures forall other :: other != id ==> Get(managed, other) == Get(old(managed), other)
      ensures hit <==> Get(managed, id) != Get(old(managed), id)
    {
      var wanted := Desired(db, inputs, id);
      hit := wanted.None? && id in managed && managed[id].active;
      if hit {
        managed := managed[id := managed[id].(active := false, updatedAt := now)];
      }
    }

    method Deactivate(order: seq<int>, now: int) returns (deactivated: nat)
      requires Distinct(order)
      modifies this`managed
      ensures forall id :: Get(managed, id) ==
                if id in order then DeactivatedRow(Get(old(managed), id), Desired(db, inputs, id), now)
                else Get(old(managed), id)
      ensures deactivated == |ChangedIn(old(managed), managed, order)|
    {
      deactivated := 0;
      assert ChangedIn(managed, managed, []) == {} && order[..0] == [];
      for i := 0 to |order|
        invariant forall id :: id in order[..i] ==>
                    Get(managed, id) == DeactivatedRow(Get(old(managed), id), Desired(db, inputs, id), now)
        invariant forall id :: id !in order[..i] ==> Get(managed, id) == Get(old(managed), id)
        invariant deactivated == |ChangedIn(old(managed), managed, order[..i])|
      {
        assert order[i] !in order[..i];
        assert order[..i + 1] == order[..i] + [order[i]];
        ghost var before := managed;
        var hit := DeactivateOne(order[i], now);
        ChangedStep(old(managed), before, managed, order[..i], order[i]);
        if hit {
          deactivated := deactivated + 1;
        }
      }
      assert order[..|order|] == order;
    }

    // The result counts exactly the rows that were inserted or changed.
    method Refresh(order: seq<int>, now: int) returns (result: nat)
      requires Covers(order, inputs, managed)
      modifies this`managed
      ensures IsRefresh(db, inputs, old(managed), managed, now)
      ensures result == |ChangedIn(old(managed), managed, order)|
    {
      var changed := Upsert(order, now);
      ghost var middle := managed;
      var deactivated := Deactivate(order, now);
      result := changed + deactivated;
      ghost var first, second := ChangedIn(old(managed), middle, order), ChangedIn(middle, managed, order);
      forall id ensures Get(managed, id) == RefreshedRow(Get(old(managed), id), Desired(db, inputs, id), now) {
        if id !in order {
          NothingWanted(db, inputs, id);
        }
      }
      assert first !! second;
      assert ChangedIn(old(managed), managed, order) == first + second;
    }
  }

  // Refreshing twice in a row: the second time there is nothing to do.
  method RefreshTwice(tables: Tables, order: seq<int>, again: seq<int>, now: int, later: int)
    returns (first: nat, second: nat)
    requires Covers(order, tables.inputs, tables.managed)
    requires Distinct(again) && forall id :: id in order ==> id in again
    modifies tables`managed
    ensures second == 0
    ensures IsRefresh(tables.db, tables.inputs, old(tables.managed), tables.managed, now)
  {
    ghost var before := tables.managed;
    first := tables.Refresh(order, now);
    ghost var middle := tables.managed;
    forall id | id in middle ensures id in order {
      assert Get(middle, id) == RefreshedRow(Get(before, id), Desired(tables.db, tables.inputs, id), now);
      if id !in order {
        NothingWanted(tables.db, tables.inputs, id);
      }
    }
    second := tables.Refresh(again, later);
    RefreshIsIdempotent(tables.db, tables.inputs, before, middle, tables.managed, now, later, again);
  }

  lemma NothingWanted(db: Database, t: Inputs, id: int)
    requires id !in t.locations
    ensures Desired(db, t, id) == None
  {
  }

  // ---- Properties

  lemma {:induction false} LabelsNearIs(db: Database, regions: seq<Region>, l: Location)
    ensures LabelsNear(db, regions, l) != [] <==> exists r :: r in regions && Near(db, r, l)
  {
    if regions != [] {
      LabelsNearIs(db, regions[1..], l);
      assert regions == [regions[0]] + regions[1..];
      assert regions[0] in regions;
    }
  }

  // The distance from an enabled region to a shop with coordinates is within the region's radius.
  ghost predicate InRange(db: Database, r: Region, l: Location) {
    match (l.latitude, l.longitude)
    case (Some(latitude), Some(longitude)) =>
      r.enabled && db.miles(r.latitude, r.longitude, latitude, longitude) <= r.radius
    case _ => false
  }

  // A shop is wanted when it is not disabled and is either overridden on, or not overridden off and in range
  // of an enabled region.
  lemma DesiredIff(db: Database, t: Inputs, id: int)
    ensures Desired(db, t, id).Some? <==>
              && id in t.locations && (t.locations[id].enabled.Some? ==> t.locations[id].enabled.value)
              && (id in t.overrides ==> t.overrides[id].managed)
              && (id in t.overrides || exists r :: r in t.regions && InRange(db, r, t.locations[id]))
    ensures Desired(db, t, id).Some? ==>
              (Desired(db, t, id).value.source == if id in t.overrides then "manual" else "region")
  {
    if id in t.locations {
      LabelsNearIs(db, t.regions, t.locations[id]);
      assert forall r :: Near(db, r, t.locations[id]) <==> InRange(db, r, t.locations[id]);
    }
  }

  // ---- Reasons

  lemma {:induction false} JoinedConcat(a: seq<string>, b: seq<string>, separator: string)
    requires a != [] && b != []
    ensures Joined(a + b, separator) == Joined(a, separator) + separator + Joined(b, separator)
  {
    assert (a + b)[0] == a[0] && (a + b)[1..] == a[1..] + b;
    if |a| == 1 {
      assert a[1..] + b == b;
    } else {
      JoinedConcat(a[1..], b, separator);
      Associative(a[0] + separator, Joined(a[1..], separator) + separator, Joined(b, separator));
      Associative(a[0] + separator, Joined(a[1..], separator), separator);
    }
  }

  ghost function InRangeAt(db: Database, regions: seq<Region>, l: Location): set<nat> {
    set i: nat | i < |regions| && InRange(db, regions[i], l)
  }

  // The labels of the regions in range, each region's once, in the order of text.
  ghost predicate AreLabels(db: Database, regions: seq<Region>, l: Location, labels: seq<string>) {
    && (forall title :: title in labels <==> exists r :: r in regions && InRange(db, r, l) && r.title == title)
    && |labels| == |InRangeAt(db, regions, l)|
    && (StableSort.TotalPreorderOn(labels, db.textLeq) ==> StableSort.Sorted(labels, db.textLeq))
  }

  lemma {:induction false} LabelsNearMembers(db: Database, regions: seq<Region>, l: Location)
    ensures forall title :: title in LabelsNear(db, regions, l) <==>
              exists r :: r in regions && InRange(db, r, l) && r.title == title
  {
    if regions != [] {
      LabelsNearMembers(db, regions[1..], l);
      assert regions == [regions[0]] + regions[1..];
      assert Near(db, regions[0], l) <==> InRange(db, regions[0], l);
      assert regions[0] in regions;
    }
  }

  lemma InRangeTail(db: Database, regions: seq<Region>, l: Location)
    requires regions != []
    ensures InRangeAt(db, regions, l)
            == Shifted(InRangeAt(db, regions[1..], l)) + if InRange(db, regions[0], l) then {0} else {}
  {
    var rest, all := InRangeAt(db, regions[1..], l), InRangeAt(db, regions, l);
    forall i: nat | i > 0 ensures i in all <==> i in Shifted(rest) {
      ShiftedMember(rest, i - 1);
      assert i in all <==> i - 1 in rest;
    }
  }

  lemma {:induction false} LabelsNearCount(db: Database, regions: seq<Region>, l: Location)
    ensures |LabelsNear(db, regions, l)| == |InRangeAt(db, regions, l)|
  {
    if regions != [] {
      LabelsNearCount(db, regions[1..], l);
      ShiftedSize(InRangeAt(db, regions[1..], l));
      InRangeTail(db, regions, l);
      assert Near(db, regions[0], l) <==> InRange(db, regions[0], l);
    } else {
      assert InRangeAt(db, regions, l) == {};
    }
  }

  ghost function Shifted(s: set<nat>): set<nat> {
    set i: nat | i in s :: i + 1
  }

  lemma ShiftedMember(s: set<nat>, y: nat)
    ensures y + 1 in Shifted(s) <==> y in s
  {
  }

  lemma ShiftedWithout(s: set<nat>, x: nat)
    requires x in s
    ensures Shifted(s) == Shifted(s - {x}) + {x + 1} && x + 1 !in Shifted(s - {x})
  {
    forall y: nat | y > 0 ensures y in Shifted(s) <==> y in Shifted(s - {x}) + {x + 1} {
      ShiftedMember(s, y - 1);
      ShiftedMember(s - {x}, y - 1);
    }
    ShiftedMember(s - {x}, x);
  }

  lemma {:induction false} ShiftedSize(s: set<nat>)
    ensures |Shifted(s)| == |s|
  {
    if x :| x in s {
      ShiftedSize(s - {x});
      ShiftedWithout(s, x);
      assert |s - {x}| == |s| - 1;
    } else {
      assert s == {} && Shifted(s) == {};
    }
  }

  ghost function RegionLabels(db: Database, t: Inputs, id: int): seq<string>
    requires id in t.locations
  {
    StableSort.Sort(LabelsNear(db, t.regions, t.locations[id]), db.textLeq)
  }

  lemma RegionLabelsAre(db: Database, t: Inputs, id: int)
    requires id in t.locations
    ensures AreLabels(db, t.regions, t.locations[id], RegionLabels(db, t, id))
  {
    var near, labels := LabelsNear(db, t.regions, t.locations[id]), RegionLabels(db, t, id);
    LabelsNearMembers(db, t.regions, t.locations[id]);
    LabelsNearCount(db, t.regions, t.locations[id]);
    StableSort.SortElements(near, db.textLeq);
    StableSort.SameElements(near, labels);
    if StableSort.TotalPreorderOn(labels, db.textLeq) {
      StableSort.SortSorted(near, near, db.textLeq);
    }
  }

  // The text that stands for an override.
  function NoteOf(o: Override): string {
    match o.note
    case Some(note) => note
    case None => "manual override"
  }

  // A wanted shop's reason: the labels of the regions in range, joined by ", "; with an override its note;
  // with both the two, if they differ, in the order of text, joined by "; ".
  lemma ReasonIs(db: Database, t: Inputs, id: int) returns (labels: seq<string>)
    requires Desired(db, t, id).Some?
    ensures id in t.locations && AreLabels(db, t.regions, t.locations[id], labels)
    ensures var reason, regions := Desired(db, t, id).value.reason, Joined(labels, ", ");
            if id !in t.overrides then reason == regions
            else
              var note := NoteOf(t.overrides[id]);
              if labels == [] || regions == note then reason == note
              else if db.textLeq(regions, note) then reason == regions + "; " + note
              else reason == note + "; " + regions
  {
    labels := RegionLabels(db, t, id);
    RegionLabelsAre(db, t, id);
    StableSort.SortElements(LabelsNear(db, t.regions, t.locations[id]), db.textLeq);
    StableSort.SameElements(LabelsNear(db, t.regions, t.locations[id]), labels);
    if id in t.overrides && labels != [] {
      TwoReasons(db, Joined(labels, ", "), NoteOf(t.overrides[id]));
    }
  }

  lemma TwoReasons(db: Database, a: string, b: string)
    ensures Joined(StableSort.Sort([a, b], db.textLeq), "; ") == if db.textLeq(a, b) then a + "; " + b else b + "; " + a
  {
    assert [a, b][1..] == [b] && [b][1..] == [];
    assert StableSort.Sort([b], db.textLeq) == [b];
    assert [b][1..] == [] && StableSort.Insert(a, [], db.textLeq) == [a];
    assert StableSort.Sort([a, b], db.textLeq) == if db.textLeq(a, b) then [a] + [b] else [b] + [a];
    JoinedConcat([a], [b], "; ");
    JoinedConcat([b], [a], "; ");
  }

  // After a refresh the active shops are exactly the wanted ones, with their source and reason.
  lemma ActiveAreDesired(db: Database, t: Inputs, before: map<int, Managed>, after: map<int, Managed>, now: int,
      id: int)
    requires IsRefresh(db, t, before, after, now)
    ensures (id in after && after[id].active) <==> Desired(db, t, id).Some?
    ensures Desired(db, t, id).Some? ==>
              && after[id].source == Desired(db, t, id).value.source
              && after[id].reason == Some(Desired(db, t, id).value.reason)
    ensures Desired(db, t, id).None? ==>
              && (id in after <==> id in before)
              && (id in before ==> after[id].source == before[id].source && after[id].reason == before[id].reason)
    ensures id in before ==> id in after
  {
    assert Get(after, id) == RefreshedRow(Get(before, id), Desired(db, t, id), now);
    assert id in before ==> Get(before, id).Some?;
  }

  // A second refresh, at any later time and in any order, changes no row and so returns 0.
  lemma RefreshIsIdempotent(db: Database, t: Inputs, before: map<int, Managed>, after: map<int, Managed>,
                            again: map<int, Managed>, now: int, later: int, order: seq<int>)
    requires IsRefresh(db, t, before, after, now) && IsRefresh(db, t, after, again, later)
    ensures again == after
    ensures ChangedIn(after, again, order) == {}
  {
    forall id ensures Get(again, id) == Get(after, id) {
      assert Get(after, id) == RefreshedRow(Get(before, id), Desired(db, t, id), now);
      assert Get(again, id) == RefreshedRow(Get(after, id), Desired(db, t, id), later);
    }
    SameGets(again, after);
  }

  lemma SameGets<T>(a: map<int, T>, b: map<int, T>)
    requires forall id :: Get(a, id) == Get(b, id)
    ensures a == b
  {
    forall id ensures id in a <==> id in b {
      assert Get(a, id) == Get(b, id);
    }
    forall id | id in a ensures a[id] == b[id] {
      assert Get(a, id) == Get(b, id);
    }
  }

  // Rows the refresh does not count keep even their update time; counted ones carry its time.
  lemma UpdateTimes(db: Database, t: Inputs, before: map<int, Managed>, after: map<int, Managed>, now: int, id: int)
    requires IsRefresh(db, t, before, after, now) && id in after
    ensures Get(before, id) != Get(after, id) ==> after[id].updatedAt == now
    ensures Get(before, id) != Get(after, id) <==>
              id !in before || before[id].source != after[id].source || before[id].reason != after[id].reason
              || before[id].active != after[id].active
  {
    assert Get(after, id) == RefreshedRow(Get(before, id), Desired(db, t, id), now);
  }
}
