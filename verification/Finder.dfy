/** The finder page's script: filtering, appending and sorting the list of shops. */
module Finder {
  import opened Wrappers
  import opened Sequences
  import opened StableSort
  import opened ListReorder
  import opened Geography

  // A row together with its list item; only the distance changes after creation.
  class Row {
    const search: string
    const position: Option<Coordinates>
    const open: real
    const wait: real
    const name: int    // rank of the name under localeCompare
    const index: int
    var distance: Option<real>

    constructor (search: string, position: Option<Coordinates>, open: real, wait: real, name: int, index: int,
                 distance: Option<real>)
      ensures this.search == search && this.position == position && this.open == open && this.wait == wait
      ensures this.name == name && this.index == index && this.distance == distance
    {
      this.search, this.position, this.open, this.wait := search, position, open, wait;
      this.name, this.index, this.distance := name, index, distance;
    }
  }

  // A JavaScript array of rows: several variables may hold the same one.
  class RowList {
    var items: seq<Row>

    constructor (items: seq<Row>)
      ensures this.items == items
    {
      this.items := items;
    }

    method Push(more: seq<Row>)
      modifies this
      ensures items == old(items) + more
    {
      items := items + more;
    }
  }

  // ---- compareDistance

  datatype Number = Finite(value: real) | PlusInfinity | MinusInfinity | NotANumber

  // (a ?? Infinity) - (b ?? Infinity)
  function Difference(a: Option<real>, b: Option<real>): Number {
    match (a, b)
    case (Some(x), Some(y)) => Finite(x - y)
    case (Some(_), None) => MinusInfinity
    case (None, Some(_)) => PlusInfinity
    case (None, None) => NotANumber
  }

  predicate Truthy(n: Number) {
    n != NotANumber && n != Finite(0.0)
  }

  function Or(n: Number, otherwise: Number): Number {
    if Truthy(n) then n else otherwise
  }

  datatype Key = Key(distance: Option<real>, open: real, wait: real, name: int, index: int)

  function KeyOf(row: Row): Key
    reads row
  {
    Key(row.distance, row.open, row.wait, row.name, row.index)
  }

  function CompareDistance(a: Key, b: Key): Number {
    Or(Difference(a.distance, b.distance),
       Or(Finite(a.open - b.open),
          Or(Finite(a.wait - b.wait),
             Or(Finite((a.name - b.name) as real),
                Finite((a.index - b.index) as real)))))
  }

  predicate NotPositive(n: Number) {
    n == MinusInfinity || (n.Finite? && n.value <= 0.0)
  }

  predicate NotAfter(a: Key, b: Key) {
    NotPositive(CompareDistance(a, b))
  }

  // The order a reader expects: nearest first, unknown distances last, then open, wait, name, index.
  ghost predicate Nearer(a: Option<real>, b: Option<real>) {
    a.Some? && (b.None? || a.value < b.value)
  }

  ghost predicate InOrder(a: Key, b: Key) {
    || Nearer(a.distance, b.distance)
    || (a.distance == b.distance
        && (a.open < b.open
            || (a.open == b.open
                && (a.wait < b.wait
                    || (a.wait == b.wait
                        && (a.name < b.name || (a.name == b.name && a.index <= b.index)))))))
  }

  // Infinity - Infinity is NaN, which is falsy, so two unknown distances tie as intended.
  lemma CompareDistanceIsLexicographic(a: Key, b: Key)
    ensures NotAfter(a, b) <==> InOrder(a, b)
  {
    assert (a.name - b.name) as real == 0.0 <==> a.name == b.name;
    assert (a.index - b.index) as real <= 0.0 <==> a.index <= b.index;
  }

  lemma CompareDistanceIsPreorder(a: Key, b: Key, c: Key)
    ensures NotAfter(a, b) || NotAfter(b, a)
    ensures NotAfter(a, b) && NotAfter(b, c) ==> NotAfter(a, c)
  {
    CompareDistanceIsLexicographic(a, b);
    CompareDistanceIsLexicographic(b, a);
    CompareDistanceIsLexicographic(b, c);
    CompareDistanceIsLexicographic(a, c);
  }

  ghost predicate RowsInOrder(a: Row, b: Row)
    reads a, b
  {
    InOrder(Key(a.distance, a.open, a.wait, a.name, a.index), Key(b.distance, b.open, b.wait, b.name, b.index))
  }

  ghost predicate SortedByDistance(rows: seq<Row>)
    reads rows
  {
    forall i, j :: 0 <= i < j < |rows| ==> RowsInOrder(rows[i], rows[j])
  }

  ghost function Keys(rows: seq<Row>): map<Row, Key>
    reads rows
  {
    map r | r in rows :: KeyOf(r)
  }

  function ByKey(keys: map<Row, Key>): (Row, Row) -> bool {
    (a: Row, b: Row) => a in keys && b in keys && NotAfter(keys[a], keys[b])
  }

  lemma SortedRows(rows: seq<Row>, keys: map<Row, Key>)
    requires Distinct(rows) && forall r :: r in rows ==> r in keys
    ensures var s := Sort(rows, ByKey(keys));
            && StableSortOf(rows, s, ByKey(keys))
            && Rearranges(s, rows)
            && forall i, j :: 0 <= i < j < |s| ==> ByKey(keys)(s[i], s[j])
  {
    var leq := ByKey(keys);
    forall a, b, c | a in rows && b in rows && c in rows
      ensures leq(a, b) || leq(b, a)
      ensures leq(a, b) && leq(b, c) ==> leq(a, c)
    {
      CompareDistanceIsPreorder(keys[a], keys[b], keys[c]);
    }
    SortIsStable(rows, leq);
    SameElements(rows, Sort(rows, leq));
    PermutationDistinct(rows, Sort(rows, leq));
  }

  // rows.slice().sort(compareDistance)
  method SortedCopy(rows: RowList) returns (sorted: RowList)
    requires Distinct(rows.items)
    ensures fresh(sorted)
    ensures StableSortOf(rows.items, sorted.items, ByKey(Keys(rows.items)))
    ensures Rearranges(sorted.items, rows.items)
    ensures SortedByDistance(sorted.items)
  {
    var keys := map r | r in rows.items :: KeyOf(r);
    SortedRows(rows.items, keys);
    sorted := new RowList(Sort(rows.items, ByKey(keys)));
    assert keys == Keys(rows.items);
    forall i, j | 0 <= i < j < |sorted.items| ensures RowsInOrder(sorted.items[i], sorted.items[j]) {
      assert ByKey(keys)(sorted.items[i], sorted.items[j]);
      CompareDistanceIsLexicographic(KeyOf(sorted.items[i]), KeyOf(sorted.items[j]));
    }
  }

  // ---- Filtering

  predicate OccursAt(text: string, term: string, i: nat) {
    i + |term| <= |text| && text[i..i + |term|] == term
  }

  predicate Includes(text: string, term: string) {
    exists i: nat :: i <= |text| && OccursAt(text, term, i)
  }

  function Matcher(term: string): Row -> bool {
    (r: Row) => Includes(r.search, term)
  }

  function Visible(rows: seq<Row>, term: string): seq<Row> {
    if term == "" then rows else Select(rows, Matcher(term))
  }

  // Both sequences list the same rows, each once.
  ghost predicate Rearranges(a: seq<Row>, b: seq<Row>) {
    && Distinct(a) && Distinct(b)
    && multiset(a) == multiset(b)
    && (forall r :: r in a ==> r in b)
    && (forall r :: r in b ==> r in a)
  }

  ghost predicate ShownFrom(shown: seq<Row>, rows: seq<Row>) {
    Distinct(shown) && forall r :: r in shown ==> r in rows
  }

  lemma VisibleMembers(rows: seq<Row>, term: string)
    requires Distinct(rows)
    ensures ShownFrom(Visible(rows, term), rows)
    ensures |Visible(rows, term)| == |rows| ==> Visible(rows, term) == rows
  {
    var v := Visible(rows, term);
    if term != "" {
      SelectMembers(rows, Matcher(term));
      SelectDistinct(rows, Matcher(term));
      assert forall r :: r in v ==> r in rows;
    }
  }

  ghost predicate Contains(text: string, term: string) {
    exists a, b :: text == a + (term + b)
  }

  // The list holds the rows whose text contains the term, each once, in the order they have among all rows.
  ghost predicate ShowsMatching(list: seq<Row>, rows: seq<Row>, term: string) {
    && Distinct(list)
    && (forall r :: r in list ==> r in rows && Contains(r.search, term))
    && (forall r :: r in rows && Contains(r.search, term) ==> r in list)
    && (forall i, j :: 0 <= i < j < |list| ==> IndexOf(rows, list[i]) < IndexOf(rows, list[j]))
  }

  lemma OrderOfSelf(rows: seq<Row>)
    requires Distinct(rows)
    ensures forall i, j :: 0 <= i < j < |rows| ==> IndexOf(rows, rows[i]) < IndexOf(rows, rows[j])
  {
    forall i | 0 <= i < |rows| ensures IndexOf(rows, rows[i]) == i {
      IndexIs(rows, i);
    }
  }

  lemma IncludesIff(text: string, term: string)
    ensures Includes(text, term) <==> Contains(text, term)
  {
    if i: nat :| i <= |text| && OccursAt(text, term, i) {
      assert text == text[..i] + (term + text[i + |term|..]);
    }
    if a, b :| text == a + (term + b) {
      assert text[|a|..|a| + |term|] == term;
      assert OccursAt(text, term, |a|);
    }
  }

  lemma ContainsNothing(text: string)
    ensures Contains(text, "")
  {
    assert text == "" + ("" + text);
  }

  lemma VisibleIs(rows: seq<Row>, term: string)
    requires Distinct(rows)
    ensures ShowsMatching(Visible(rows, term), rows, term)
  {
    var list := Visible(rows, term);
    if term == "" {
      forall r | r in rows ensures Contains(r.search, "") {
        ContainsNothing(r.search);
      }
      OrderOfSelf(rows);
    } else {
      SelectMembers(rows, Matcher(term));
      SelectDistinct(rows, Matcher(term));
      forall r | r in rows ensures Matcher(term)(r) <==> Contains(r.search, term) {
        IncludesIff(r.search, term);
      }
      forall i, j | 0 <= i < j < |list| ensures IndexOf(rows, list[i]) < IndexOf(rows, list[j]) {
        SelectOrder(rows, Matcher(term), i, j);
      }
    }
  }

  lemma AllShown(rows: seq<Row>, term: string)
    requires Distinct(rows)
    ensures Visible(rows, term) == rows <==> forall r :: r in rows ==> Contains(r.search, term)
  {
    VisibleIs(rows, term);
    VisibleMembers(rows, term);
    if forall r :: r in rows ==> Contains(r.search, term) {
      DistinctSize(rows);
      DistinctSize(Visible(rows, term));
      assert SetOf(Visible(rows, term)) == SetOf(rows);
    }
  }

  lemma VisibleShown(ordered: seq<Row>, rows: seq<Row>, term: string)
    requires Rearranges(ordered, rows)
    ensures ShownFrom(Visible(ordered, term), rows)
    ensures |ordered| == |rows|
    ensures |Visible(ordered, term)| == |rows| ==> Visible(ordered, term) == ordered
  {
    VisibleMembers(ordered, term);
    assert |multiset(ordered)| == |multiset(rows)|;
  }

  lemma AppendShown(shown: seq<Row>, rows: seq<Row>, more: seq<Row>)
    requires ShownFrom(shown, rows) && Distinct(rows + more)
    ensures ShownFrom(shown, rows + more) && ShownFrom(shown + more, rows + more)
  {
    var all := rows + more;
    assert forall i :: 0 <= i < |rows| ==> all[i] == rows[i];
    forall i, j | 0 <= i < |shown| && 0 <= j < |more| ensures shown[i] != more[j] {
      assert shown[i] in rows;
      var k :| 0 <= k < |rows| && rows[k] == shown[i];
      assert all[k] != all[|rows| + j];
    }
    assert Distinct(more) by {
      assert forall j :: 0 <= j < |more| ==> more[j] == all[|rows| + j];
    }
  }

  // On the incremental path the displayed rows are a rearrangement of all rows.
  lemma ShownAll(shown: seq<Row>, ordered: seq<Row>, rows: seq<Row>)
    requires Rearranges(ordered, rows) && ShownFrom(shown, rows) && |shown| == |rows|
    ensures SetOf(shown) == SetOf(ordered)
  {
    SameMembers(shown, rows);
  }

  // ---- The page

  datatype Event =
    | Input(term: string)
    | Append(rows: seq<Row>)
    | Locate(here: Coordinates, term: string)

  class Page {
    const list: ListElement<Row>
    const rows: RowList
    const miles: (Coordinates, Coordinates) -> real
    var ordered: RowList
    var visibleRows: RowList
    var lastTerm: string
    var browserLocation: Option<Coordinates>

    // The list shows exactly the rows of `ordered` that match the last term, in order.
    ghost predicate Synced()
      reads this, list, ordered
    {
      list.children == Visible(ordered.items, lastTerm)
    }

    lemma SyncedShows()
      requires Valid() && Synced()
      ensures ShowsMatching(list.children, ordered.items, lastTerm)
    {
      VisibleIs(ordered.items, lastTerm);
    }

    ghost predicate Valid()
      reads this, list, rows, ordered, visibleRows, ordered.items
    {
      && Rearranges(ordered.items, rows.items)
      && ShownFrom(list.children, rows.items)
      && (browserLocation.None? ==>
            && ordered == rows
            && (lastTerm == "" ==> list.children == rows.items)
            && (visibleRows.items == list.children || |visibleRows.items| > |rows.items|))
      && (browserLocation.Some? ==>
            && ordered != rows && visibleRows != rows
            && SortedByDistance(ordered.items)
            && visibleRows.items == list.children)
    }

    constructor (list: ListElement<Row>, initial: seq<Row>, term: string, miles: (Coordinates, Coordinates) -> real)
      requires Distinct(initial) && list.children == initial
      ensures Valid() && fresh(rows) && this.list == list && this.miles == miles
      ensures rows.items == initial && lastTerm == term && browserLocation == None
      ensures Synced() <==> forall r :: r in initial ==> Contains(r.search, term)
    {
      AllShown(initial, term);
      var all := new RowList(initial);
      this.list, this.rows, this.miles := list, all, miles;
      this.ordered, this.visibleRows := all, all;
      this.lastTerm, this.browserLocation := term, None;
    }

    method Render(term: string, minimal: bool)
      requires Rearranges(ordered.items, rows.items) && ShownFrom(list.children, rows.items)
      requires minimal ==> visibleRows.items == list.children || |visibleRows.items| > |rows.items|
      modifies this`visibleRows, this`lastTerm, list
      ensures visibleRows.items == list.children == Visible(ordered.items, term)
      ensures visibleRows == ordered || fresh(visibleRows)
      ensures ShownFrom(list.children, rows.items)
      ensures lastTerm == term
      ensures SortedByDistance(ordered.items) == old(SortedByDistance(ordered.items))
      ensures forall r :: r in rows.items ==> r.distance == old(r.distance)
    {
      var visible := ordered;
      if term != "" {
        visible := new RowList(Visible(ordered.items, term));
      }
      VisibleShown(ordered.items, rows.items, term);
      if minimal && |visible.items| == |visibleRows.items| && |visible.items| == |rows.items| {
        ShownAll(list.children, ordered.items, rows.items);
        ghost var keep := ReorderRows(list, visibleRows.items, visible.items);
      } else {
        list.ReplaceChildren(visible.items);
      }
      visibleRows := visible;
      lastTerm := term;
    }

    method ApplyFilter(term: string)
      requires Valid()
      modifies this`visibleRows, this`lastTerm, list
      ensures Valid()
      ensures lastTerm == term
      ensures term == old(lastTerm) ==> list.children == old(list.children) && Synced() == old(Synced())
      ensures term != old(lastTerm) ==> Synced()
    {
      if term == lastTerm {
        return;
      }
      Render(term, false);
    }

    // Puts `ordered` in step with `rows`: the same array, or a copy sorted by distance.
    method Reorder()
      requires Distinct(rows.items)
      modifies this`ordered
      ensures Rearranges(ordered.items, rows.items)
      ensures browserLocation.None? ==> ordered == rows
      ensures browserLocation.Some? ==> fresh(ordered) && SortedByDistance(ordered.items)
    {
      if browserLocation.Some? {
        ordered := SortedCopy(rows);
      } else {
        ordered := rows;
      }
    }

    method AppendRows(nextRows: seq<Row>)
      requires Valid()
      requires Distinct(rows.items + nextRows)
      modifies this`ordered, this`visibleRows, this`lastTerm, list, rows
      ensures Valid()
      ensures rows.items == old(rows.items) + nextRows
      ensures lastTerm == old(lastTerm)
      ensures nextRows == [] ==> list.children == old(list.children) && Synced() == old(Synced())
      ensures nextRows != [] ==> Synced()
    {
      if |nextRows| == 0 {
        return;
      }
      AppendShown(list.children, rows.items, nextRows);
      rows.Push(nextRows);
      Reorder();
      if browserLocation.None? && lastTerm == "" {
        list.Append(nextRows);
        visibleRows := new RowList(visibleRows.items + nextRows);
      } else {
        Render(lastTerm, browserLocation.Some?);
      }
    }

    method UseBrowserLocation(here: Coordinates, term: string)
      requires Valid()
      modifies this, list, rows.items
      ensures Valid() && Synced()
      ensures lastTerm == term && browserLocation == Some(here)
      ensures forall r :: r in rows.items ==> r.distance == Distance(here, r)
    {
      Relocate(here);
      Render(term, true);
    }

    // The first half of the handler: new distances, and rows sorted by them.
    method Relocate(here: Coordinates)
      requires Distinct(rows.items)
      modifies this`browserLocation, this`ordered, rows.items
      ensures browserLocation == Some(here)
      ensures Rearranges(ordered.items, rows.items) && fresh(ordered) && SortedByDistance(ordered.items)
      ensures forall r :: r in rows.items ==> r.distance == Distance(here, r)
    {
      browserLocation := Some(here);
      UpdateDistances(here);
      Reorder();
    }

    method UpdateDistances(here: Coordinates)
      requires Distinct(rows.items)
      modifies rows.items
      ensures forall r :: r in rows.items ==> r.distance == Distance(here, r)
    {
      for i := 0 to |rows.items|
        invariant forall j :: 0 <= j < i ==> rows.items[j].distance == Distance(here, rows.items[j])
      {
        UpdateBrowserDistance(rows.items[i], here);
      }
    }

    function Distance(here: Coordinates, row: Row): Option<real> {
      if row.position.None? then None else Some(miles(here, row.position.value))
    }

    method UpdateBrowserDistance(row: Row, here: Coordinates)
      modifies row
      ensures row.distance == Distance(here, row)
    {
      if row.position.None? {
        row.distance := None;
      } else {
        row.distance := Some(miles(here, row.position.value));
      }
    }

    method Handle(e: Event)
      requires Valid()
      requires Distinct(rows.items + NewRows(e))
      modifies this, list, rows, rows.items
      ensures Valid()
      ensures rows.items == old(rows.items) + NewRows(e)
      ensures lastTerm == TermAfter(old(lastTerm), [e]) && browserLocation == LocationAfter(old(browserLocation), [e])
      ensures if Renders(e, old(lastTerm)) then Synced() else Synced() == old(Synced())
    {
      match e {
        case Input(term) => ApplyFilter(term);
        case Append(more) => AppendRows(more);
        case Locate(here, term) => UseBrowserLocation(here, term);
      }
    }

    // Any run of events keeps the page valid. After it the list is filtered correctly exactly when
    // it was at the start or some event rendered it.
    method Run(events: seq<Event>, ghost all: set<Row>)
      requires Valid()
      requires Distinct(rows.items + Appended(events))
      requires forall r :: r in rows.items ==> r in all
      requires forall r :: r in Appended(events) ==> r in all
      modifies this, list, rows, all
      ensures Valid()
      ensures rows.items == old(rows.items) + Appended(events)
      ensures lastTerm == TermAfter(old(lastTerm), events)
      ensures browserLocation == LocationAfter(old(browserLocation), events)
      ensures Synced() <==> old(Synced()) || AnyRenders(events, old(lastTerm))
      ensures Synced() ==> ShowsMatching(list.children, ordered.items, lastTerm)
      decreases |events|
    {
      if events == [] {
        if Synced() {
          SyncedShows();
        }
        return;
      }
      var first, rest := events[0], events[1..];
      ghost var start := rows.items;
      ghost var term := lastTerm;
      AppendedSplit(start, events);
      ConcatMembers(start, NewRows(first));
      ConcatMembers(NewRows(first), Appended(rest));
      Handle(first);
      Run(rest, all);
      AnyRendersSplit(events, term);
    }
  }

  // The events that redraw a page whose last term is still the given one.
  predicate Renders(e: Event, lastTerm: string) {
    match e
    case Input(term) => term != lastTerm
    case Append(rows) => rows != []
    case Locate(_, _) => true
  }

  ghost predicate AnyRenders(events: seq<Event>, lastTerm: string) {
    exists e :: e in events && Renders(e, lastTerm)
  }

  lemma AnyRendersSplit(events: seq<Event>, lastTerm: string)
    requires events != []
    ensures AnyRenders(events, lastTerm) <==> Renders(events[0], lastTerm) || AnyRenders(events[1..], lastTerm)
  {
    assert events == [events[0]] + events[1..];
    assert events[0] in events;
  }

  // The term and the place that the last event to bring one brought.
  function TermAfter(term: string, events: seq<Event>): string
    decreases |events|
  {
    if events == [] then term else TermAfter(if events[0].Append? then term else events[0].term, events[1..])
  }

  function LocationAfter(here: Option<Coordinates>, events: seq<Event>): Option<Coordinates>
    decreases |events|
  {
    if events == [] then here else LocationAfter(if events[0].Locate? then Some(events[0].here) else here, events[1..])
  }

  function NewRows(e: Event): seq<Row> {
    if e.Append? then e.rows else []
  }

  function Appended(events: seq<Event>): seq<Row> {
    if events == [] then [] else NewRows(events[0]) + Appended(events[1..])
  }

  lemma AppendedSplit(rows: seq<Row>, events: seq<Event>)
    requires events != [] && Distinct(rows + Appended(events))
    ensures Distinct(rows + NewRows(events[0]))
    ensures Distinct((rows + NewRows(events[0])) + Appended(events[1..]))
    ensures rows + Appended(events) == (rows + NewRows(events[0])) + Appended(events[1..])
  {
    Associative(rows, NewRows(events[0]), Appended(events[1..]));
    DistinctPrefix(rows + NewRows(events[0]), Appended(events[1..]));
  }

  // With text already in the search box, the rows served with the page stay unfiltered at first.
  method UnfilteredAtStart(miles: (Coordinates, Coordinates) -> real) returns (page: Page)
    ensures fresh(page) && page.Valid() && page.lastTerm == "b" && !page.Synced()
  {
    var row := new Row("a", None, 0.0, 0.0, 0, 0, None);
    var list := new ListElement([row]);
    page := new Page(list, [row], "b", miles);
    forall a, b ensures "a" != a + ("b" + b) {
      assert (a + ("b" + b))[|a|] == 'b';
    }
    assert row in [row] && !Contains(row.search, "b");
  }
}
