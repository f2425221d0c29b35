/**
  The data model of the transit client (`Model` in Models.swift): stops,
  arrivals and the route lookup tables, the rider-facing display name of an
  arrival, and the `Schedule` aggregate whose post-processing filters, sorts
  and groups the arrivals by stop and indexes the stops by ID.

  Dates are real numbers of seconds.
 */
module Models {
  import opened Wrappers
  import opened TextSearch
  import Decimal
  import opened GroupSizes

  // ---------------------------------------------------------------------
  // Entities
  // ---------------------------------------------------------------------

  datatype Status = Scheduled | Estimated | Canceled

  datatype Direction = Northbound | Eastbound | Southbound | Westbound

  datatype VehiclePosition = VehiclePosition(latitude: real, longitude: real, heading: Option<real>)

  datatype Stop = Stop(stopID: int, name: string, latitude: real, longitude: real, direction: Direction)

  datatype Arrival = Arrival(
    id: string,
    routeID: int,
    vehicleID: Option<string>,
    stopID: int,
    fullSign: string,
    vehiclePosition: Option<VehiclePosition>,
    scheduledDate: real,
    estimatedDate: Option<real>,
    status: Status)

  datatype Route = Route(routeID: int)

  function RouteOf(a: Arrival): Route {
    Route(a.routeID)
  }

  // ---------------------------------------------------------------------
  // Route lookup tables
  // ---------------------------------------------------------------------

  const RailRouteIDs: set<int> := {90, 100, 190, 193, 194, 200, 203, 208, 250}

  /** Route IDs that have a fixed name in the symbol table. */
  const NamedRouteIDs: set<int> := {90, 100, 190, 193, 194, 195, 200, 203, 290}

  function IsRail(route: Route): (rail: bool)
    ensures rail <==> route.routeID in RailRouteIDs
  {
    match route.routeID
    case 90 | 100 | 190 | 193 | 194 | 200 | 203 | 208 | 250 => true
    case _ => false
  }

  function IconName(route: Route): (icon: string)
    ensures icon == "tram.fill" <==> route.routeID in RailRouteIDs
    ensures icon == "bus.fill" <==> route.routeID !in RailRouteIDs
  {
    if IsRail(route) then "tram.fill" else "bus.fill"
  }

  function Symbol(route: Route): (symbol: string)
    ensures route.routeID in NamedRouteIDs ==> |symbol| >= 1 && 'A' <= symbol[0] <= 'Z'
    ensures route.routeID !in NamedRouteIDs ==> symbol == Decimal.IntToString(route.routeID)
  {
    match route.routeID
    case 90 => "Red"
    case 100 => "Blue"
    case 190 => "Yellow"
    case 193 => "NS"
    case 194 => "A"
    case 195 => "B"
    case 200 => "Green"
    case 203 => "WES"
    case 290 => "Orange"
    case _ => Decimal.IntToString(route.routeID)
  }

  /**
    A route outside the symbol table is shown as its decimal ID (the parser
    reads the ID back), and no fixed name reads as a number.
   */
  lemma {:induction false} SymbolFallsBackToDecimal(route: Route)
    ensures route.routeID !in NamedRouteIDs ==> Symbol(route) == Decimal.IntToString(route.routeID)
    ensures route.routeID !in NamedRouteIDs ==> Decimal.ParseInt(Symbol(route)) == Some(route.routeID)
    ensures route.routeID in NamedRouteIDs <==> Decimal.ParseInt(Symbol(route)).None?
  {
    var s := Symbol(route);
    if route.routeID in NamedRouteIDs {
      assert !Decimal.IsDigit(s[0]) && s[0] != '-';
    } else {
      Decimal.IntToStringRoundTrip(route.routeID);
    }
  }

  /** Different routes never share a symbol. */
  lemma SymbolInjective(r1: Route, r2: Route)
    requires Symbol(r1) == Symbol(r2)
    ensures r1 == r2
  {
    SymbolFallsBackToDecimal(r1);
    SymbolFallsBackToDecimal(r2);
  }

  /** Rail route 250 has no fixed name; bus route 195 is "B". */
  lemma SymbolExamples()
    ensures IsRail(Route(250)) && Symbol(Route(250)) == "250"
    ensures !IsRail(Route(195)) && Symbol(Route(195)) == "B"
  {
    assert Decimal.NatToString(2) == "2";
    assert Decimal.NatToString(25) == "25";
  }

  // ---------------------------------------------------------------------
  // Display name
  // ---------------------------------------------------------------------

  const ToSeparator: string := " to "
  const DoubleSpace: string := "  "

  /**
    The rider-facing name: for a rail route, what follows the first
    case-insensitive " to "; otherwise what follows the first double space;
    otherwise the whole sign.
   */
  function DisplayName(a: Arrival): (name: string)
    ensures |name| <= |a.fullSign| && name == a.fullSign[|a.fullSign| - |name|..]
    ensures IsRail(RouteOf(a)) && Contains(a.fullSign, ToSeparator, true) ==>
      var cut := |a.fullSign| - |name|;
      cut >= |ToSeparator| && IsFirstOccurrence(a.fullSign, ToSeparator, cut - |ToSeparator|, true)
    ensures !(IsRail(RouteOf(a)) && Contains(a.fullSign, ToSeparator, true)) && Contains(a.fullSign, DoubleSpace, false) ==>
      var cut := |a.fullSign| - |name|;
      cut >= |DoubleSpace| && IsFirstOccurrence(a.fullSign, DoubleSpace, cut - |DoubleSpace|, false)
    ensures !(IsRail(RouteOf(a)) && Contains(a.fullSign, ToSeparator, true)) && !Contains(a.fullSign, DoubleSpace, false) ==>
      name == a.fullSign
  {
    var space := Find(a.fullSign, DoubleSpace, false);
    var to := Find(a.fullSign, ToSeparator, true);
    var cutoffIndex :=
      if IsRail(RouteOf(a)) && to.Some? then to.value + |ToSeparator|
      else if space.Some? then space.value + |DoubleSpace|
      else 0;
    a.fullSign[cutoffIndex..]
  }

  function SignArrival(routeID: int, fullSign: string): Arrival {
    Arrival("a", routeID, None, 1, fullSign, None, 0.0, None, Estimated)
  }

  /** A rail sign is cut after " to ". */
  lemma DisplayNameRailExample()
    ensures DisplayName(SignArrival(90, "Red to Airport")) == "Airport"
  {
    var s := "Red to Airport";
    assert OccursAt(s, ToSeparator, 3, true);
    forall j | 0 <= j < 3
      ensures !OccursAt(s, ToSeparator, j, true)
    {
      assert !SameChar(s[j], ToSeparator[0], true);
    }
    assert s[7..] == "Airport";
  }

  /** The rail separator is matched without regard to case. */
  lemma DisplayNameCaseExample()
    ensures DisplayName(SignArrival(100, "Blue TO Gresham")) == "Gresham"
  {
    var s := "Blue TO Gresham";
    assert OccursAt(s, ToSeparator, 4, true);
    forall j | 0 <= j < 4
      ensures !OccursAt(s, ToSeparator, j, true)
    {
      assert !SameChar(s[j], ToSeparator[0], true);
    }
    assert s[8..] == "Gresham";
  }

  /** A bus sign is cut after its first double space. */
  lemma DisplayNameBusExample()
    ensures DisplayName(SignArrival(12, "12  Main St")) == "Main St"
  {
    var s := "12  Main St";
    assert OccursAt(s, DoubleSpace, 2, false);
    forall j | 0 <= j < 2
      ensures !OccursAt(s, DoubleSpace, j, false)
    {
      assert s[j] != DoubleSpace[0];
    }
    assert s[4..] == "Main St";
  }

  /** A bus sign is never cut at " to ", and without a double space stays whole. */
  lemma DisplayNameWholeExample()
    ensures DisplayName(SignArrival(9, "9 to Zoo")) == "9 to Zoo"
  {
    var s := "9 to Zoo";
    forall j | 0 <= j && j + 2 <= |s|
      ensures !OccursAt(s, DoubleSpace, j, false)
    {
      assert j in {0, 1, 2, 3, 4, 5, 6};
      if s[j] != ' ' {
        assert !SameChar(s[j + 0], DoubleSpace[0], false);
      } else {
        assert !SameChar(s[j + 1], DoubleSpace[1], false);
      }
    }
  }

  // ---------------------------------------------------------------------
  // Schedule post-processing
  // ---------------------------------------------------------------------

  predicate SortedByDate(xs: seq<Arrival>) {
    forall i, j :: 0 <= i < j < |xs| ==> xs[i].scheduledDate <= xs[j].scheduledDate
  }

  /** `arrivals.filter { $0.status == .estimated }` */
  function FilterEstimated(xs: seq<Arrival>): (r: seq<Arrival>)
    ensures |r| <= |xs|
    ensures forall i :: 0 <= i < |r| ==> r[i].status.Estimated?
    decreases |xs|
  {
    if xs == [] then []
    else (if xs[0].status.Estimated? then [xs[0]] else []) + FilterEstimated(xs[1..])
  }

  /** The filter keeps every estimated arrival, as often as it occurs, and nothing else. */
  lemma {:induction false} FilterEstimatedCounts(xs: seq<Arrival>)
    ensures forall a :: multiset(FilterEstimated(xs))[a] == if a.status.Estimated? then multiset(xs)[a] else 0
    decreases |xs|
  {
    if xs != [] {
      assert xs == [xs[0]] + xs[1..];
      FilterEstimatedCounts(xs[1..]);
    }
  }

  function InsertByDate(x: Arrival, xs: seq<Arrival>): (r: seq<Arrival>)
    ensures multiset(r) == multiset(xs) + multiset{x}
    decreases |xs|
  {
    if xs == [] || x.scheduledDate <= xs[0].scheduledDate then [x] + xs
    else
      assert xs == [xs[0]] + xs[1..];
      [xs[0]] + InsertByDate(x, xs[1..])
  }

  /** Inserting into a sorted sequence keeps it sorted. */
  lemma {:induction false} InsertByDateSorted(x: Arrival, xs: seq<Arrival>)
    requires SortedByDate(xs)
    ensures SortedByDate(InsertByDate(x, xs))
    decreases |xs|
  {
    if xs != [] && x.scheduledDate > xs[0].scheduledDate {
      var tail := xs[1..];
      var rest := InsertByDate(x, tail);
      InsertByDateSorted(x, tail);
      forall k | 0 <= k < |rest|
        ensures xs[0].scheduledDate <= rest[k].scheduledDate
      {
        assert rest[k] in multiset(rest);
        if rest[k] != x {
          assert rest[k] in multiset(tail);
          var m :| 0 <= m < |tail| && tail[m] == rest[k];
          assert xs[m + 1] == rest[k];
        }
      }
      assert InsertByDate(x, xs) == [xs[0]] + rest;
    }
  }

  /** `sorted { $0.scheduledDate < $1.scheduledDate }`, as a stable insertion sort. */
  function SortByDate(xs: seq<Arrival>): (r: seq<Arrival>)
    ensures SortedByDate(r)
    ensures multiset(r) == multiset(xs)
    decreases |xs|
  {
    if xs == [] then []
    else
      assert xs == [xs[0]] + xs[1..];
      InsertByDateSorted(xs[0], SortByDate(xs[1..]));
      InsertByDate(xs[0], SortByDate(xs[1..]))
  }

  function ArrivalStopIDs(xs: seq<Arrival>): set<int> {
    set a | a in xs :: a.stopID
  }

  /** The arrivals of `xs` at stop `k`, in input order. */
  function ArrivalsAt(xs: seq<Arrival>, k: int): seq<Arrival>
    decreases |xs|
  {
    if xs == [] then []
    else
      var last := xs[|xs| - 1];
      ArrivalsAt(xs[..|xs| - 1], k) + (if last.stopID == k then [last] else [])
  }

  /** Exactly the arrivals at stop `k` are selected, each as often as it occurs. */
  lemma {:induction false} ArrivalsAtCounts(xs: seq<Arrival>, k: int)
    ensures forall a :: multiset(ArrivalsAt(xs, k))[a] == if a.stopID == k then multiset(xs)[a] else 0
    decreases |xs|
  {
    if xs != [] {
      var last := xs[|xs| - 1];
      assert xs == xs[..|xs| - 1] + [last];
      ArrivalsAtCounts(xs[..|xs| - 1], k);
    }
  }

  /** `Dictionary(grouping:by:)` keyed by stop ID: each group keeps input order. */
  function GroupByStop(xs: seq<Arrival>): (groups: map<int, seq<Arrival>>)
    ensures groups.Keys == ArrivalStopIDs(xs)
  {
    map k | k in ArrivalStopIDs(xs) :: ArrivalsAt(xs, k)
  }

  /**
    Grouping puts every arrival, with its multiplicity, under its own stop ID
    and nowhere else, and makes no empty group.
   */
  lemma GroupByStopContents(xs: seq<Arrival>)
    ensures GroupByStop(xs).Keys == ArrivalStopIDs(xs)
    ensures forall k :: k in GroupByStop(xs) ==> |GroupByStop(xs)[k]| > 0
    ensures forall k, a :: k in GroupByStop(xs) ==>
      multiset(GroupByStop(xs)[k])[a] == if a.stopID == k then multiset(xs)[a] else 0
  {
    forall k | k in GroupByStop(xs)
      ensures |GroupByStop(xs)[k]| > 0
      ensures forall a :: multiset(GroupByStop(xs)[k])[a] == if a.stopID == k then multiset(xs)[a] else 0
    {
      ArrivalsAtCounts(xs, k);
      var a :| a in xs && a.stopID == k;
      assert multiset(ArrivalsAt(xs, k))[a] > 0;
    }
  }

  /** Selecting one stop's arrivals from a sorted sequence keeps them sorted. */
  lemma {:induction false} ArrivalsAtSorted(xs: seq<Arrival>, k: int)
    requires SortedByDate(xs)
    ensures SortedByDate(ArrivalsAt(xs, k))
    decreases |xs|
  {
    if xs != [] {
      var prefix := xs[..|xs| - 1];
      var last := xs[|xs| - 1];
      var g := ArrivalsAt(prefix, k);
      ArrivalsAtSorted(prefix, k);
      ArrivalsAtCounts(prefix, k);
      forall i | 0 <= i < |g|
        ensures g[i].scheduledDate <= last.scheduledDate
      {
        assert g[i] in multiset(g);
        var m :| 0 <= m < |prefix| && prefix[m] == g[i];
        assert xs[m] == g[i];
      }
    }
  }

  /** Grouping a sorted sequence yields sorted groups. */
  lemma GroupByStopKeepsOrder(xs: seq<Arrival>)
    requires SortedByDate(xs)
    ensures forall k :: k in GroupByStop(xs) ==> SortedByDate(GroupByStop(xs)[k])
  {
    forall k | k in GroupByStop(xs)
      ensures SortedByDate(GroupByStop(xs)[k])
    {
      ArrivalsAtSorted(xs, k);
    }
  }

  lemma ArrivalStopIDsAppend(prefix: seq<Arrival>, x: Arrival)
    ensures ArrivalStopIDs(prefix + [x]) == ArrivalStopIDs(prefix) + {x.stopID}
  {
    var xs := prefix + [x];
    forall k | k in ArrivalStopIDs(xs)
      ensures k in ArrivalStopIDs(prefix) + {x.stopID}
    {
      var a :| a in xs && a.stopID == k;
      if a != x {
        assert a in prefix;
      }
    }
    forall k | k in ArrivalStopIDs(prefix)
      ensures k in ArrivalStopIDs(xs)
    {
      var a :| a in prefix && a.stopID == k;
      assert a in xs;
    }
    assert x in xs;
  }

  /** A stop no arrival refers to has no arrivals. */
  lemma ArrivalsAtAbsentStop(xs: seq<Arrival>, k: int)
    requires k !in ArrivalStopIDs(xs)
    ensures ArrivalsAt(xs, k) == []
  {
    ArrivalsAtCounts(xs, k);
  }

  lemma ArrivalsAtAppend(prefix: seq<Arrival>, x: Arrival, k: int)
    ensures ArrivalsAt(prefix + [x], k) == ArrivalsAt(prefix, k) + (if x.stopID == k then [x] else [])
  {
    var xs := prefix + [x];
    assert xs[..|xs| - 1] == prefix;
  }

  /** Appending an arrival appends it to its own stop's group, creating the group if needed. */
  lemma GroupByStopAppend(prefix: seq<Arrival>, x: Arrival)
    ensures GroupByStop(prefix + [x]) ==
      GroupByStop(prefix)[x.stopID := (if x.stopID in GroupByStop(prefix) then GroupByStop(prefix)[x.stopID] else []) + [x]]
  {
    var before := GroupByStop(prefix);
    var after := GroupByStop(prefix + [x]);
    var expected := before[x.stopID := (if x.stopID in before then before[x.stopID] else []) + [x]];
    ArrivalStopIDsAppend(prefix, x);
    assert after.Keys == expected.Keys;
    forall k | k in after.Keys
      ensures after[k] == expected[k]
    {
      ArrivalsAtAppend(prefix, x, k);
      if k == x.stopID && x.stopID !in before {
        ArrivalsAtAbsentStop(prefix, k);
      }
    }
  }

  /** Every input arrival lands in exactly one group: the sizes add up. */
  lemma {:induction false} GroupByStopSizes(xs: seq<Arrival>)
    ensures SizeSum(GroupByStop(xs), GroupByStop(xs).Keys) == |xs|
    decreases |xs|
  {
    if xs != [] {
      var prefix := xs[..|xs| - 1];
      var x := xs[|xs| - 1];
      assert xs == prefix + [x];
      GroupByStopSizes(prefix);
      GroupByStopAppend(prefix, x);
      SizeSumAppend(GroupByStop(prefix), x.stopID, x);
    }
  }

  predicate DistinctStopIDs(stops: seq<Stop>) {
    forall i, j :: 0 <= i < j < |stops| ==> stops[i].stopID != stops[j].stopID
  }

  ghost function StopIDs(stops: seq<Stop>): set<int> {
    set s | s in stops :: s.stopID
  }

  /** `Dictionary(uniqueKeysWithValues: stops.map { ($0.stopID, $0) })` */
  function StopsByID(stops: seq<Stop>): (index: map<int, Stop>)
    requires DistinctStopIDs(stops)
    ensures index.Keys == StopIDs(stops)
    ensures forall s :: s in stops ==> s.stopID in index && index[s.stopID] == s
    decreases |stops|
  {
    if stops == [] then map[]
    else
      var prefix := stops[..|stops| - 1];
      var last := stops[|stops| - 1];
      assert stops == prefix + [last];
      assert forall s :: s in prefix ==> s.stopID != last.stopID;
      StopsByID(prefix)[last.stopID := last]
  }

  /** The derived `arrivalsByStopID` of a schedule with the given arrivals. */
  function ArrivalsByStop(arrivals: seq<Arrival>): (byStop: map<int, seq<Arrival>>)
    ensures forall k :: k in byStop ==> SortedByDate(byStop[k])
  {
    GroupByStopKeepsOrder(SortByDate(FilterEstimated(arrivals)));
    GroupByStop(SortByDate(FilterEstimated(arrivals)))
  }

  lemma ArrivalsByStopCount(arrivals: seq<Arrival>, k: int, a: Arrival)
    requires k in ArrivalsByStop(arrivals)
    ensures multiset(ArrivalsByStop(arrivals)[k])[a] ==
      if a.status.Estimated? && a.stopID == k then multiset(arrivals)[a] else 0
  {
    var sorted := SortByDate(FilterEstimated(arrivals));
    assert ArrivalsByStop(arrivals)[k] == ArrivalsAt(sorted, k);
    ArrivalsAtCounts(sorted, k);
    FilterEstimatedCounts(arrivals);
  }

  /**
    Each stop lists every estimated arrival at that stop as often as it
    occurs in the input, and nothing else.
   */
  lemma ArrivalsByStopCounts(arrivals: seq<Arrival>)
    ensures forall k, a :: k in ArrivalsByStop(arrivals) ==>
      multiset(ArrivalsByStop(arrivals)[k])[a] ==
        if a.status.Estimated? && a.stopID == k then multiset(arrivals)[a] else 0
  {
    forall k: int, a: Arrival | k in ArrivalsByStop(arrivals)
      ensures multiset(ArrivalsByStop(arrivals)[k])[a] ==
        if a.status.Estimated? && a.stopID == k then multiset(arrivals)[a] else 0
    {
      ArrivalsByStopCount(arrivals, k, a);
    }
  }

  /** Only estimated arrivals are listed, each under its own stop. */
  lemma ArrivalsByStopMembers(arrivals: seq<Arrival>)
    ensures forall k, a :: k in ArrivalsByStop(arrivals) && a in ArrivalsByStop(arrivals)[k] ==>
      a.status.Estimated? && a.stopID == k
  {
    forall k: int, a: Arrival | k in ArrivalsByStop(arrivals) && a in ArrivalsByStop(arrivals)[k]
      ensures a.status.Estimated? && a.stopID == k
    {
      ArrivalsByStopCount(arrivals, k, a);
      assert a in multiset(ArrivalsByStop(arrivals)[k]);
    }
  }

  lemma ArrivalListed(arrivals: seq<Arrival>, a: Arrival)
    requires a in arrivals && a.status.Estimated?
    ensures a.stopID in ArrivalsByStop(arrivals) && a in ArrivalsByStop(arrivals)[a.stopID]
  {
    var estimated := FilterEstimated(arrivals);
    var sorted := SortByDate(estimated);
    FilterEstimatedCounts(arrivals);
    assert a in multiset(estimated);
    assert a in multiset(sorted);
    assert a in sorted;
    assert a.stopID in ArrivalStopIDs(sorted);
    ArrivalsByStopCount(arrivals, a.stopID, a);
    assert a in multiset(ArrivalsByStop(arrivals)[a.stopID]);
  }

  /**
    The stops listed are exactly those of the estimated arrivals, and every
    estimated arrival is listed under its stop.
   */
  lemma ArrivalsByStopComplete(arrivals: seq<Arrival>)
    ensures ArrivalsByStop(arrivals).Keys == set a | a in arrivals && a.status.Estimated? :: a.stopID
    ensures forall a :: a in arrivals && a.status.Estimated? ==>
      a.stopID in ArrivalsByStop(arrivals) && a in ArrivalsByStop(arrivals)[a.stopID]
  {
    forall a | a in arrivals && a.status.Estimated?
      ensures a.stopID in ArrivalsByStop(arrivals) && a in ArrivalsByStop(arrivals)[a.stopID]
    {
      ArrivalListed(arrivals, a);
    }
    var estimated := FilterEstimated(arrivals);
    var sorted := SortByDate(estimated);
    assert ArrivalsByStop(arrivals).Keys == ArrivalStopIDs(sorted);
    forall k | k in ArrivalStopIDs(sorted)
      ensures k in set a | a in arrivals && a.status.Estimated? :: a.stopID
    {
      var a :| a in sorted && a.stopID == k;
      assert a in multiset(sorted);
      FilterEstimatedCounts(arrivals);
      assert a in multiset(estimated);
      assert a in arrivals && a.status.Estimated?;
    }
  }

  /** Each stop's arrivals are in non-decreasing order of scheduled date. */
  lemma ArrivalsByStopSorted(arrivals: seq<Arrival>)
    ensures forall k :: k in ArrivalsByStop(arrivals) ==> SortedByDate(ArrivalsByStop(arrivals)[k])
  {
    GroupByStopKeepsOrder(SortByDate(FilterEstimated(arrivals)));
  }

  /** The group sizes add up to the number of estimated arrivals. */
  lemma ArrivalsByStopSizes(arrivals: seq<Arrival>)
    ensures SizeSum(ArrivalsByStop(arrivals), ArrivalsByStop(arrivals).Keys) == |FilterEstimated(arrivals)|
  {
    var sorted := SortByDate(FilterEstimated(arrivals));
    GroupByStopSizes(sorted);
    assert |sorted| == |multiset(sorted)|;
  }

  lemma SortTwoOutOfOrder(a: Arrival, b: Arrival)
    requires b.scheduledDate < a.scheduledDate
    ensures SortByDate([a, b]) == [b, a]
  {
    assert [a, b][1..] == [b];
    assert SortByDate([b]) == InsertByDate(b, []) == [b];
    assert InsertByDate(a, [b]) == [b] + InsertByDate(a, []);
  }

  lemma GroupTwoAtOneStop(b: Arrival, a: Arrival)
    requires a.stopID == b.stopID
    ensures GroupByStop([b, a]) == map[b.stopID := [b, a]]
  {
    var k := b.stopID;
    assert ArrivalStopIDs([b, a]) == {k} by {
      assert b in [b, a] && a in [b, a];
    }
    assert [b, a][..1] == [b];
    assert [b][..0] == [];
    assert ArrivalsAt([b], k) == [b];
    assert ArrivalsAt([b, a], k) == [b, a];
  }

  /**
    Three arrivals at stop 1: "a" in 300 s, "b" in 60 s (both estimated)
    and "c" in 30 s (only scheduled). Stop 1 lists b then a.
   */
  lemma ArrivalsByStopExample(t: real)
    ensures
      var a := Arrival("a", 12, None, 1, "12  Main St", None, t + 300.0, None, Estimated);
      var b := Arrival("b", 12, None, 1, "12  Main St", None, t + 60.0, None, Estimated);
      var c := Arrival("c", 12, None, 1, "12  Main St", None, t + 30.0, None, Scheduled);
      ArrivalsByStop([a, b, c]) == map[1 := [b, a]]
  {
    var a := Arrival("a", 12, None, 1, "12  Main St", None, t + 300.0, None, Estimated);
    var b := Arrival("b", 12, None, 1, "12  Main St", None, t + 60.0, None, Estimated);
    var c := Arrival("c", 12, None, 1, "12  Main St", None, t + 30.0, None, Scheduled);
    assert FilterEstimated([a, b, c]) == [a, b] by {
      assert [a, b, c][1..] == [b, c];
      assert [b, c][1..] == [c];
      assert FilterEstimated([c]) == [];
    }
    SortTwoOutOfOrder(a, b);
    GroupTwoAtOneStop(b, a);
  }

  /**
    A fetched schedule. `arrivals`, `stops` and `queryDate` are fixed when
    the response is decoded; `PostProcess` fills in the two derived indexes.
   */
  class Schedule {
    const arrivals: seq<Arrival>
    const stops: seq<Stop>
    const queryDate: real

    var arrivalsByStopID: map<int, seq<Arrival>>
    var stopsByStopID: map<int, Stop>

    /** A freshly decoded schedule, with empty derived indexes. */
    constructor (arrivals: seq<Arrival>, stops: seq<Stop>, queryDate: real)
      ensures this.arrivals == arrivals && this.stops == stops && this.queryDate == queryDate
      ensures arrivalsByStopID == map[] && stopsByStopID == map[]
    {
      this.arrivals := arrivals;
      this.stops := stops;
      this.queryDate := queryDate;
      arrivalsByStopID := map[];
      stopsByStopID := map[];
    }

    /** The derived indexes agree with the raw lists. */
    ghost predicate Processed()
      reads this
    {
      && DistinctStopIDs(stops)
      && arrivalsByStopID == ArrivalsByStop(arrivals)
      && stopsByStopID == StopsByID(stops)
    }

    /**
      `postProcess`: lists the estimated arrivals of each stop in order of
      scheduled date, and indexes the stops by ID.
     */
    method PostProcess()
      requires DistinctStopIDs(stops)
      modifies this
      ensures Processed()
      ensures forall k, a :: k in arrivalsByStopID && a in arrivalsByStopID[k] ==> a.status.Estimated? && a.stopID == k
      ensures forall a :: a in arrivals && a.status.Estimated? ==> a.stopID in arrivalsByStopID && a in arrivalsByStopID[a.stopID]
      ensures forall k, a :: k in arrivalsByStopID ==>
        multiset(arrivalsByStopID[k])[a] == if a.status.Estimated? && a.stopID == k then multiset(arrivals)[a] else 0
      ensures SizeSum(arrivalsByStopID, arrivalsByStopID.Keys) == |FilterEstimated(arrivals)|
      ensures forall k :: k in arrivalsByStopID ==> SortedByDate(arrivalsByStopID[k])
      ensures stopsByStopID.Keys == StopIDs(stops)
      ensures forall s :: s in stops ==> s.stopID in stopsByStopID && stopsByStopID[s.stopID] == s
    {
      arrivalsByStopID := GroupByStop(SortByDate(FilterEstimated(arrivals)));
      stopsByStopID := StopsByID(stops);
      ArrivalsByStopMembers(arrivals);
      ArrivalsByStopComplete(arrivals);
      ArrivalsByStopCounts(arrivals);
      ArrivalsByStopSizes(arrivals);
      ArrivalsByStopSorted(arrivals);
    }
  }
}
