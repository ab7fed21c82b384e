/** The finder's first page and the stream of the rest: two handlers that sort independently. */
module LocationPages {
  import opened Wrappers
  import opened StableSort
  import opened Geography

  type Int32 = i: int | -0x8000_0000 <= i <= 0x7fff_ffff

  datatype Location = Location(slug: string, name: string, isOpen: Option<bool>, pickupWait: Option<Int32>,
                               latitude: Option<real>, longitude: Option<real>)

  // The visitor's place, if known, and the distance function.
  datatype View = View(here: Option<Coordinates>, miles: (Coordinates, Coordinates) -> real)

  const INITIAL_LIMIT := 100
  const I32_MAX := 0x7fff_ffff

  // ---- Ordering

  datatype Ordering = Less | Equal | Greater

  function Then(first: Ordering, second: Ordering): Ordering {
    if first == Equal then second else first
  }

  function Flip(o: Ordering): Ordering {
    match o
    case Less => Greater
    case Equal => Equal
    case Greater => Less
  }

  function CompareReal(a: real, b: real): Ordering {
    if a < b then Less else if a == b then Equal else Greater
  }

  function CompareInt(a: int, b: int): Ordering {
    if a < b then Less else if a == b then Equal else Greater
  }

  // str::cmp: by the first character that differs, a prefix first.
  function CompareText(a: string, b: string): Ordering {
    if a == "" then (if b == "" then Equal else Less)
    else if b == "" then Greater
    else Then(CompareInt(a[0] as int, b[0] as int), CompareText(a[1..], b[1..]))
  }

  function LocationCoordinates(l: Location): Option<Coordinates> {
    if l.latitude.Some? && l.longitude.Some?
       && -90.0 <= l.latitude.value <= 90.0 && -180.0 <= l.longitude.value <= 180.0
    then Some(Coordinates(l.latitude.value, l.longitude.value)) else None
  }

  // distance_sort; None stands for the infinite distance of a location without coordinates.
  function DistanceSort(view: View, here: Coordinates, l: Location): Option<real> {
    var at := LocationCoordinates(l);
    if at.Some? then Some(view.miles(here, at.value)) else None
  }

  function CompareDistance(a: Option<real>, b: Option<real>): Ordering {
    match (a, b)
    case (Some(x), Some(y)) => CompareReal(x, y)
    case (Some(_), None) => Less
    case (None, Some(_)) => Greater
    case (None, None) => Equal
  }

  function OpenSort(l: Location): int {
    if l.isOpen == Some(true) then 0 else 1
  }

  function WaitSort(l: Location): Int32 {
    if l.pickupWait.Some? then l.pickupWait.value else I32_MAX
  }

  function DefaultOrder(a: Location, b: Location): Ordering {
    Then(CompareInt(OpenSort(a), OpenSort(b)),
         Then(CompareInt(WaitSort(a), WaitSort(b)), CompareText(a.name, b.name)))
  }

  function Order(view: View, a: Location, b: Location): Ordering {
    match view.here
    case Some(here) =>
      Then(CompareDistance(DistanceSort(view, here, a), DistanceSort(view, here, b)), DefaultOrder(a, b))
    case None => DefaultOrder(a, b)
  }

  function NotAfter(view: View): (Location, Location) -> bool {
    (a: Location, b: Location) => Order(view, a, b) != Greater
  }

  // How three comparisons of a weak order fit together: a with b, b with c, a with c.
  predicate Fit(ab: Ordering, bc: Ordering, ac: Ordering) {
    ab != Greater && bc != Greater ==> ac != Greater && (ac == Equal <==> ab == Equal && bc == Equal)
  }

  lemma ThenFits(ab: Ordering, bc: Ordering, ac: Ordering, ab': Ordering, bc': Ordering, ac': Ordering)
    requires Fit(ab, bc, ac) && Fit(ab', bc', ac')
    ensures Fit(Then(ab, ab'), Then(bc, bc'), Then(ac, ac'))
  {
  }

  lemma {:induction false} CompareTextFits(a: string, b: string, c: string)
    ensures Fit(CompareText(a, b), CompareText(b, c), CompareText(a, c))
    ensures CompareText(b, a) == Flip(CompareText(a, b))
  {
    if a != "" && b != "" {
      if c != "" {
        CompareTextFits(a[1..], b[1..], c[1..]);
      } else {
        CompareTextFits(a[1..], b[1..], "");
      }
    }
  }

  lemma DefaultOrderFits(a: Location, b: Location, c: Location)
    ensures Fit(DefaultOrder(a, b), DefaultOrder(b, c), DefaultOrder(a, c))
    ensures DefaultOrder(b, a) == Flip(DefaultOrder(a, b))
  {
    CompareTextFits(a.name, b.name, c.name);
    var x, y := CompareInt(WaitSort(a), WaitSort(b)), CompareInt(WaitSort(b), WaitSort(c));
    var z := CompareInt(WaitSort(a), WaitSort(c));
    ThenFits(x, y, z, CompareText(a.name, b.name), CompareText(b.name, c.name), CompareText(a.name, c.name));
  }

  lemma OrderFits(view: View, a: Location, b: Location, c: Location)
    ensures Fit(Order(view, a, b), Order(view, b, c), Order(view, a, c))
    ensures Order(view, b, a) == Flip(Order(view, a, b))
  {
    DefaultOrderFits(a, b, c);
  }

  // The shorter wait; an unknown one is as good as the longest there can be.
  predicate WaitsLess(a: Option<Int32>, b: Option<Int32>) {
    match (a, b)
    case (Some(x), Some(y)) => x < y
    case (Some(x), None) => x < 2147483647
    case (None, _) => false
  }

  // Open before not known to be open; then the shorter wait.
  predicate LeadsByOpening(a: Location, b: Location) {
    var open, open' := a.isOpen == Some(true), b.isOpen == Some(true);
    (open && !open') || (open == open' && WaitsLess(a.pickupWait, b.pickupWait))
  }

  // Open shops first, then the shorter wait, then the name.
  ghost predicate ByOpening(a: Location, b: Location) {
    || LeadsByOpening(a, b)
    || (!LeadsByOpening(b, a) && CompareText(a.name, b.name) != Greater)
  }

  // A location with coordinates on the globe.
  predicate OnMap(l: Location) {
    && l.latitude.Some? && l.longitude.Some?
    && -90.0 <= l.latitude.value && l.latitude.value <= 90.0
    && -180.0 <= l.longitude.value && l.longitude.value <= 180.0
  }

  function MilesFrom(view: View, here: Coordinates, l: Location): real
    requires OnMap(l)
  {
    view.miles(here, Coordinates(l.latitude.value, l.longitude.value))
  }

  // From a known place nearest first and those off the map last; then, and without a place, by opening.
  ghost predicate Precedes(view: View, a: Location, b: Location) {
    match view.here
    case None => ByOpening(a, b)
    case Some(here) =>
      if OnMap(a) && OnMap(b) then
        || MilesFrom(view, here, a) < MilesFrom(view, here, b)
        || (MilesFrom(view, here, a) == MilesFrom(view, here, b) && ByOpening(a, b))
      else OnMap(a) || (!OnMap(b) && ByOpening(a, b))
  }

  lemma OrderIsLexicographic(view: View, a: Location, b: Location)
    ensures Order(view, a, b) != Greater <==> Precedes(view, a, b)
  {
  }

  // str::cmp is a prefix order refined at the first difference.
  lemma {:induction false} CompareTextIs(a: string, b: string)
    ensures CompareText(a, b) == Equal <==> a == b
    ensures a <= b ==> CompareText(a, b) != Greater
    ensures forall k: nat :: k < |a| && k < |b| && a[..k] == b[..k] && a[k] != b[k] ==>
              (CompareText(a, b) == Less <==> a[k] < b[k])
  {
    if a != "" && b != "" {
      CompareTextIs(a[1..], b[1..]);
      assert a == [a[0]] + a[1..] && b == [b[0]] + b[1..];
      forall k: nat | k < |a| && k < |b| && a[..k] == b[..k] && a[k] != b[k]
        ensures CompareText(a, b) == Less <==> a[k] < b[k]
      {
        if k > 0 {
          assert a[..k][0] == b[..k][0];
          assert a[1..][..k - 1] == a[..k][1..] && b[1..][..k - 1] == b[..k][1..];
          assert a[1..][k - 1] == a[k] && b[1..][k - 1] == b[k];
        }
      }
    }
  }

  lemma OrderIsPreorder(view: View, s: seq<Location>)
    ensures TotalPreorderOn(s, NotAfter(view))
  {
    var leq := NotAfter(view);
    forall a, b, c | a in s && b in s && c in s
      ensures leq(a, b) || leq(b, a)
      ensures leq(a, b) && leq(b, c) ==> leq(a, c)
    {
      OrderFits(view, a, b, c);
    }
  }

  // ---- The handlers

  // slice::sort_by, a stable sort in place.
  method SortLocations(locations: array<Location>, view: View)
    modifies locations
    ensures StableSortOf(old(locations[..]), locations[..], NotAfter(view))
    ensures forall i, j :: 0 <= i < j < locations.Length ==> Precedes(view, locations[i], locations[j])
  {
    var before := locations[..];
    var sorted := Sort(before, NotAfter(view));
    OrderIsPreorder(view, before);
    SortIsStable(before, NotAfter(view));
    SameElements(before, sorted);
    for i := 0 to locations.Length
      invariant forall j :: 0 <= j < i ==> locations[j] == sorted[j]
    {
      locations[i] := sorted[i];
    }
    assert locations[..] == sorted;
    SortedPrecede(view, sorted);
  }

  lemma SortedPrecede(view: View, sorted: seq<Location>)
    requires Sorted(sorted, NotAfter(view))
    ensures forall i, j :: 0 <= i < j < |sorted| ==> Precedes(view, sorted[i], sorted[j])
  {
    forall i, j | 0 <= i < j < |sorted| ensures Precedes(view, sorted[i], sorted[j]) {
      OrderIsLexicographic(view, sorted[i], sorted[j]);
    }
  }

  datatype StreamRow = StreamRow(index: nat, location: Location)

  // FinderTemplate::new: the rows of the page, and where the stream is to go on if there is more.
  method FirstPage(snapshot: seq<Location>, view: View) returns (rows: seq<Location>, offset: Option<nat>)
    ensures rows <= Sort(snapshot, NotAfter(view)) && |rows| <= 100
    ensures if |snapshot| > 100 then offset == Some(|rows|) && |rows| == 100
            else offset == None && |rows| == |snapshot|
  {
    var locations := new Location[|snapshot|](i requires 0 <= i < |snapshot| => snapshot[i]);
    assert locations[..] == snapshot;
    SortLocations(locations, view);
    SortedAgree(view, snapshot, locations[..]);
    var visible := if locations.Length < INITIAL_LIMIT then locations.Length else INITIAL_LIMIT;
    rows := locations[..visible];
    offset := if locations.Length > visible then Some(visible) else None;
  }

  // finder_locations_stream: sort again, number, skip.
  method Stream(snapshot: seq<Location>, view: View, offset: nat) returns (rows: seq<StreamRow>)
    ensures var sorted := Sort(snapshot, NotAfter(view));
            && |sorted| == |snapshot|
            && |rows| == (if offset < |snapshot| then |snapshot| - offset else 0)
            && forall k :: 0 <= k < |rows| ==> rows[k] == StreamRow(offset + k, sorted[offset + k])
  {
    var locations := new Location[|snapshot|](i requires 0 <= i < |snapshot| => snapshot[i]);
    assert locations[..] == snapshot;
    SortLocations(locations, view);
    SortedAgree(view, snapshot, locations[..]);
    rows := [];
    for index := 0 to locations.Length
      invariant |rows| == if offset < index then index - offset else 0
      invariant forall k :: 0 <= k < |rows| ==> rows[k] == StreamRow(offset + k, locations[offset + k])
    {
      if index >= offset {
        rows := rows + [StreamRow(index, locations[index])];
      }
    }
  }

  // Any two stable sorts of one snapshot agree, whatever algorithm made them.
  lemma SortedAgree(view: View, snapshot: seq<Location>, sorted: seq<Location>)
    requires StableSortOf(snapshot, sorted, NotAfter(view))
    ensures sorted == Sort(snapshot, NotAfter(view))
    ensures |sorted| == |snapshot|
  {
    OrderIsPreorder(view, snapshot);
    StableSortUnique(snapshot, sorted, NotAfter(view));
    SameElements(snapshot, sorted);
  }

  function LocationsOf(rows: seq<StreamRow>): seq<Location> {
    seq(|rows|, i requires 0 <= i < |rows| => rows[i].location)
  }

  // The page and the stream from its offset list each location of the snapshot once, in the stable order
  // by (distance, open, wait, name), and every streamed row carries its place in that list.
  method PageThenStream(snapshot: seq<Location>, view: View) returns (page: seq<Location>, rest: seq<StreamRow>)
    ensures page + LocationsOf(rest) == Sort(snapshot, NotAfter(view))
    ensures StableSortOf(snapshot, page + LocationsOf(rest), NotAfter(view))
    ensures var all := page + LocationsOf(rest);
            forall i, j :: 0 <= i < j < |all| ==> Precedes(view, all[i], all[j])
    ensures forall k :: 0 <= k < |rest| ==>
              rest[k].index == |page| + k && (page + LocationsOf(rest))[rest[k].index] == rest[k].location
  {
    var offset;
    page, offset := FirstPage(snapshot, view);
    rest := [];
    if offset.Some? {
      rest := Stream(snapshot, view, offset.value);
    }
    SortedOnce(view, snapshot);
    PageAndRest(Sort(snapshot, NotAfter(view)), page, rest);
    SortedPrecede(view, Sort(snapshot, NotAfter(view)));
  }

  lemma SortedOnce(view: View, snapshot: seq<Location>)
    ensures StableSortOf(snapshot, Sort(snapshot, NotAfter(view)), NotAfter(view))
    ensures |Sort(snapshot, NotAfter(view))| == |snapshot|
  {
    OrderIsPreorder(view, snapshot);
    SortIsStable(snapshot, NotAfter(view));
    SameElements(snapshot, Sort(snapshot, NotAfter(view)));
  }

  lemma PageAndRest(sorted: seq<Location>, page: seq<Location>, rest: seq<StreamRow>)
    requires page <= sorted && |page| + |rest| == |sorted|
    requires forall k :: 0 <= k < |rest| ==> rest[k] == StreamRow(|page| + k, sorted[|page| + k])
    ensures page + LocationsOf(rest) == sorted
  {
  }
}
