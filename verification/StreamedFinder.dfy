/** The finder page while its rows still stream in: which rows know the browser's location. */
module StreamedFinder {
  import opened Wrappers
  import opened Sequences
  import opened Geography
  import opened ListReorder
  import opened Finder

  datatype Arrival =
    | Received(row: Row)
    | Finished
    | Typed(term: string)
    | Located(here: Coordinates, term: string)

  // The batch that waits after an arrival: it is handed on when it holds 100 rows, and at the end.
  function Waiting(batch: seq<Row>, a: Arrival): seq<Row> {
    match a
    case Received(row) => if |batch| + 1 >= 100 then [] else batch + [row]
    case Finished => []
    case _ => batch
  }

  // The rows that waited at the last location event.
  function Passed(passed: seq<Row>, batch: seq<Row>, a: Arrival): seq<Row> {
    if a.Located? then batch else passed
  }

  function PassedOver(passed: seq<Row>, batch: seq<Row>, arrivals: seq<Arrival>): seq<Row>
    decreases |arrivals|
  {
    if arrivals == [] then passed else
      PassedOver(Passed(passed, batch, arrivals[0]), Waiting(batch, arrivals[0]), arrivals[1..])
  }

  function NewRow(a: Arrival): seq<Row> {
    if a.Received? then [a.row] else []
  }

  function NewRowsOf(arrivals: seq<Arrival>): seq<Row> {
    if arrivals == [] then [] else NewRow(arrivals[0]) + NewRowsOf(arrivals[1..])
  }

  function PlaceAfter(here: Option<Coordinates>, a: Arrival): Option<Coordinates> {
    if a.Located? then Some(a.here) else here
  }

  function LastPlace(here: Option<Coordinates>, arrivals: seq<Arrival>): Option<Coordinates>
    decreases |arrivals|
  {
    if arrivals == [] then here else LastPlace(PlaceAfter(here, arrivals[0]), arrivals[1..])
  }

  class Stream {
    const page: Page
    var batch: seq<Row>
    // The rows that waited at the last location event, and the distances they had then.
    ghost var passed: seq<Row>
    ghost var kept: map<Row, Option<real>>

    // All rows so far: those of the page, and those that wait.
    ghost function All(): seq<Row>
      reads this, page.rows
    {
      page.rows.items + batch
    }

    // Every row has the distance of the last place, but those that were passed over keep what they had.
    ghost predicate Placed()
      reads this, page, page.rows, page.rows.items, batch
    {
      && kept.Keys == SetOf(passed) && SetOf(passed) <= SetOf(All())
      && (page.browserLocation.None? ==> passed == [])
      && (page.browserLocation.Some? ==>
            forall r :: r in All() ==>
              r.distance == if r in kept then kept[r] else page.Distance(page.browserLocation.value, r))
    }

    ghost predicate Valid()
      reads this, page, page.list, page.rows, page.ordered, page.visibleRows, page.ordered.items, page.rows.items, batch
    {
      page.Valid() && Distinct(All()) && |batch| < 100 && Placed()
    }

    constructor (page: Page)
      requires page.Valid() && page.browserLocation.None?
      ensures Valid() && this.page == page && batch == [] && passed == []
    {
      this.page := page;
      batch, passed, kept := [], [], map[];
      new;
      assert All() == page.rows.items;
    }

    method Flush()
      requires page.Valid() && Distinct(All()) && Placed()
      modifies this`batch, page`ordered, page`visibleRows, page`lastTerm, page.list, page.rows
      ensures Valid() && batch == [] && All() == old(All())
    {
      if |batch| > 0 {
        page.AppendRows(batch);
        batch := [];
      }
      assert All() == old(All());
    }

    // What rowFromStream does with the place, if there is one.
    method Place(row: Row)
      requires Valid() && row !in All()
      modifies row
      ensures Valid()
      ensures page.browserLocation.Some? ==> row.distance == page.Distance(page.browserLocation.value, row)
      ensures page.browserLocation.None? ==> row.distance == old(row.distance)
    {
      if page.browserLocation.Some? {
        ConcatMembers(page.rows.items, batch);
        page.UpdateBrowserDistance(row, page.browserLocation.value);
        assert forall r :: r in page.ordered.items ==> r in page.rows.items && KeyOf(r) == old(KeyOf(r));
        assert SortedByDistance(page.ordered.items);
        assert forall r :: r in All() ==> r.distance == old(r.distance);
      }
    }

    method Receive(row: Row)
      requires Valid() && Distinct(All() + [row])
      modifies this`batch, page`ordered, page`visibleRows, page`lastTerm, page.list, page.rows, row
      ensures Valid() && batch == Waiting(old(batch), Received(row)) && All() == old(All()) + [row]
      ensures page.browserLocation == old(page.browserLocation)
      ensures page.browserLocation.None? ==> row.distance == old(row.distance)
    {
      DistinctParts(All(), [row]);
      assert row in [row];
      Place(row);
      Hold(row);
      if |batch| >= 100 {
        Flush();
      }
    }

    method Hold(row: Row)
      requires Valid() && Distinct(All() + [row])
      requires page.browserLocation.Some? ==> row.distance == page.Distance(page.browserLocation.value, row)
      modifies this`batch
      ensures page.Valid() && Distinct(All()) && Placed()
      ensures batch == old(batch) + [row] && All() == old(All()) + [row]
    {
      DistinctParts(All(), [row]);
      assert row in [row];
      batch := batch + [row];
      assert All() == old(All()) + [row];
      ConcatMembers(old(All()), [row]);
    }

    method Locate(here: Coordinates, term: string)
      requires Valid()
      modifies this`passed, this`kept, page, page.list, page.rows.items
      ensures Valid() && batch == old(batch) && All() == old(All()) && passed == batch
      ensures page.browserLocation == Some(here) && forall r :: r in batch ==> kept[r] == r.distance == old(r.distance)
    {
      passed, kept := batch, map r | r in batch :: r.distance;
      DistinctParts(page.rows.items, batch);
      ConcatMembers(page.rows.items, batch);
      Measure(here, term);
    }

    // The page measures its own rows; those of the batch stay as they are.
    method Measure(here: Coordinates, term: string)
      requires page.Valid() && forall r :: r in batch ==> r !in page.rows.items
      modifies page, page.list, page.rows.items
      ensures page.Valid() && page.browserLocation == Some(here)
      ensures forall r :: r in page.rows.items ==> r.distance == page.Distance(here, r)
      ensures forall r :: r in batch ==> r.distance == old(r.distance)
    {
      page.UseBrowserLocation(here, term);
    }

    method Type(term: string)
      requires Valid()
      modifies page`visibleRows, page`lastTerm, page.list
      ensures Valid()
    {
      page.ApplyFilter(term);
    }

    method Handle(a: Arrival)
      requires Valid() && Distinct(All() + NewRow(a))
      modifies this, page, page.list, page.rows, page.rows.items, NewRow(a)
      ensures Valid() && All() == old(All()) + NewRow(a)
      ensures batch == Waiting(old(batch), a) && passed == Passed(old(passed), old(batch), a)
      ensures page.browserLocation == PlaceAfter(old(page.browserLocation), a)
    {
      assert a.Received? ==> a.row in NewRow(a);
      match a {
        case Received(row) => Receive(row);
        case Finished => Flush();
        case Typed(term) => Type(term);
        case Located(here, term) => Locate(here, term);
      }
    }

    // After any run of rows, filters and locations every row has the distance of the last place, exactly if
    // those that waited in an unfinished batch when it came happen to have it already.
    method Run(arrivals: seq<Arrival>, ghost all: set<Row>)
      requires Valid() && Distinct(All() + NewRowsOf(arrivals))
      requires forall r :: r in page.rows.items ==> r in all
      requires forall r :: r in batch ==> r in all
      requires forall r :: r in NewRowsOf(arrivals) ==> r in all
      modifies this, page, page.list, page.rows, all
      ensures Valid() && All() == old(All()) + NewRowsOf(arrivals)
      ensures passed == PassedOver(old(passed), old(batch), arrivals)
      ensures page.browserLocation == LastPlace(old(page.browserLocation), arrivals)
      ensures page.browserLocation.Some? ==> (EveryRowPlaced() <==> PassedRowsPlaced())
      ensures page.browserLocation.Some? && passed == [] ==> EveryRowPlaced()
      decreases |arrivals|
    {
      if arrivals != [] {
        var first, rest := arrivals[0], arrivals[1..];
        ghost var start := All();
        NewRowsSplit(start, arrivals);
        ConcatMembers(NewRow(first), NewRowsOf(rest));
        ConcatMembers(page.rows.items, batch);
        assert NewRowsOf(arrivals) == NewRow(first) + NewRowsOf(rest);
        assert forall r :: r in start ==> r in all;
        assert forall r :: r in NewRow(first) ==> r in all;
        Handle(first);
        ConcatMembers(start, NewRow(first));
        ConcatMembers(page.rows.items, batch);
        assert All() == start + NewRow(first);
        forall r | r in page.rows.items || r in batch ensures r in all {
          assert r in start + NewRow(first);
        }
        Run(rest, all);
      }
      PlacedIff();
    }

    ghost predicate EveryRowPlaced()
      requires page.browserLocation.Some?
      reads this, page, page.rows, page.rows.items, batch
    {
      forall r :: r in All() ==> r.distance == page.Distance(page.browserLocation.value, r)
    }

    ghost predicate PassedRowsPlaced()
      requires page.browserLocation.Some?
      reads this, page
    {
      forall r :: r in passed && r in kept ==> kept[r] == page.Distance(page.browserLocation.value, r)
    }

    lemma PlacedIff()
      requires Valid()
      ensures page.browserLocation.Some? ==> (EveryRowPlaced() <==> PassedRowsPlaced())
      ensures page.browserLocation.Some? && passed == [] ==> EveryRowPlaced()
    {
      if page.browserLocation.Some? {
        forall r | r in passed ensures r in All() && r in kept {
          assert r in SetOf(passed);
          assert r in SetOf(All());
        }
        forall r | r in kept ensures r in passed {
          assert r in SetOf(passed);
        }
      }
    }
  }

  lemma NewRowsSplit(rows: seq<Row>, arrivals: seq<Arrival>)
    requires arrivals != [] && Distinct(rows + NewRowsOf(arrivals))
    ensures Distinct(rows + NewRow(arrivals[0]))
    ensures Distinct((rows + NewRow(arrivals[0])) + NewRowsOf(arrivals[1..]))
    ensures rows + NewRowsOf(arrivals) == (rows + NewRow(arrivals[0])) + NewRowsOf(arrivals[1..])
  {
    Associative(rows, NewRow(arrivals[0]), NewRowsOf(arrivals[1..]));
    DistinctPrefix(rows + NewRow(arrivals[0]), NewRowsOf(arrivals[1..]));
  }

  method EmptyStream(miles: (Coordinates, Coordinates) -> real) returns (stream: Stream)
    ensures fresh(stream) && fresh(stream.page) && fresh(stream.page.list) && fresh(stream.page.rows)
    ensures stream.Valid() && stream.All() == [] && stream.batch == []
    ensures stream.page.miles == miles && stream.page.browserLocation == None
  {
    var list := new ListElement([]);
    var page := new Page(list, [], "", miles);
    stream := new Stream(page);
  }

  // A row that waits when the location arrives, and keeps the distance it was served with.
  method PassedOverRow(served: Option<real>, here: Coordinates, there: Coordinates,
                       miles: (Coordinates, Coordinates) -> real)
    returns (stream: Stream, row: Row)
    ensures stream.Valid() && row in stream.All() && stream.page.browserLocation == Some(here)
    ensures row.distance == served && stream.page.Distance(here, row) == Some(miles(here, there))
  {
    stream := EmptyStream(miles);
    row := new Row("a", Some(there), 0.0, 0.0, 0, 0, served);
    ServeThenLocate(stream, row, here);
  }

  method ServeThenLocate(stream: Stream, row: Row, here: Coordinates)
    requires stream.Valid() && stream.All() == [] && stream.batch == [] && stream.page.browserLocation == None
    modifies stream, stream.page, stream.page.list, stream.page.rows, row
    ensures stream.Valid() && stream.All() == [row] && stream.page.browserLocation == Some(here)
    ensures row.distance == old(row.distance)
  {
    assert stream.All() + [row] == [row];
    stream.Receive(row);
    assert |stream.page.rows.items| + |stream.batch| == |stream.All()|;
    assert row in stream.batch;
    stream.Locate(here, "");
    label Located:
    stream.Flush();
    assert row.distance == old@Located(row.distance);
  }

  lemma DistinctParts<T>(a: seq<T>, b: seq<T>)
    requires Distinct(a + b)
    ensures Distinct(a) && Distinct(b) && forall x :: x in b ==> x !in a
  {
    var all := a + b;
    assert forall i :: 0 <= i < |a| ==> all[i] == a[i];
    assert forall j :: 0 <= j < |b| ==> all[|a| + j] == b[j];
    forall x | x in b ensures x !in a {
      var j :| 0 <= j < |b| && b[j] == x;
      assert all[|a| + j] == x;
      assert forall i :: 0 <= i < |a| ==> all[i] != all[|a| + j];
    }
  }
}
