/** The data preparation of the flights page (examples/flights/main.js):
    the button that swaps the map for the force graph, and the one pass over
    the flight rows that collects the airports with data, merges the two
    directions of every route into one link, and totals the flights of every
    airport; then the force-graph nodes picked from the airport list. */
module FlightsPage {
  import opened Wrappers
  import Strings
  import OrderedMap

  /* ---------------------------------------------------------------------
     the swap button
     --------------------------------------------------------------------- */

  /** `map_active` and whether the map and the force graph are displayed. */
  datatype SwapState = SwapState(mapActive: bool, mapShown: bool, forceShown: bool)

  /** A click on `#swap`. */
  function Swap(s: SwapState): (r: SwapState)
    ensures r.mapActive == !s.mapActive
    ensures r.mapShown != r.forceShown
    ensures r.mapShown == r.mapActive
  {
    if s.mapActive then SwapState(false, false, true) else SwapState(true, true, false)
  }

  /** The display agrees with `map_active`. */
  predicate Consistent(s: SwapState)
  {
    s.mapShown == s.mapActive && s.forceShown == !s.mapActive
  }

  /** After any click the display agrees with `map_active`, and from such a
      state two clicks lead back to it. */
  lemma SwapTwice(s: SwapState)
    ensures Consistent(Swap(s))
    ensures Consistent(s) ==> Swap(Swap(s)) == s
  {
  }

  /* ---------------------------------------------------------------------
     the flight rows
     --------------------------------------------------------------------- */

  /** One row of the flights table; `value` is the number of flights,
      already passed through `parseInt`. */
  datatype Flight = Flight(origin: string, destination: string, value: int)

  function SumRows(rows: seq<Flight>): int
  {
    if |rows| == 0 then 0 else SumRows(rows[..|rows| - 1]) + rows[|rows| - 1].value
  }

  /** `airports_with_data`, collected row by row. */
  function AirportsWithData(rows: seq<Flight>): (r: set<string>)
    ensures forall i :: 0 <= i < |rows| ==> rows[i].origin in r && rows[i].destination in r
  {
    if |rows| == 0 then {}
    else AirportsWithData(rows[..|rows| - 1]) + {rows[|rows| - 1].origin, rows[|rows| - 1].destination}
  }

  /** `airports_with_data` holds exactly the origins and the destinations. */
  lemma {:induction false} AirportsWithDataMembers(rows: seq<Flight>, a: string)
    ensures a in AirportsWithData(rows) <==> exists i :: 0 <= i < |rows| && (rows[i].origin == a || rows[i].destination == a)
  {
    if |rows| > 0 {
      var front := rows[..|rows| - 1];
      AirportsWithDataMembers(front, a);
      assert forall i :: 0 <= i < |front| ==> front[i] == rows[i];
    }
  }

  /* ---------------------------------------------------------------------
     count_flights
     --------------------------------------------------------------------- */

  type Counts = OrderedMap.OMap<string, int>

  /** One `has`/`get`/`set` step of the count: add `v` to the entry of `k`,
      starting from 0 when `k` has none yet. */
  function Tally(m: Counts, k: string, v: int): (r: Counts)
    ensures OrderedMap.Has(r, k) && OrderedMap.Get(r, k) == (if OrderedMap.Has(m, k) then OrderedMap.Get(m, k) else 0) + v
    ensures forall k' :: k' != k ==> (OrderedMap.Has(r, k') <==> OrderedMap.Has(m, k'))
    ensures forall k' :: k' != k && OrderedMap.Has(m, k') ==> OrderedMap.Get(r, k') == OrderedMap.Get(m, k')
    ensures OrderedMap.KeysDistinct(m) ==> OrderedMap.KeysDistinct(r)
    ensures OrderedMap.SumValues(r) == OrderedMap.SumValues(m) + v
    ensures |r| == if OrderedMap.Has(m, k) then |m| else |m| + 1
  {
    var before := if OrderedMap.Has(m, k) then OrderedMap.Get(m, k) else 0;
    OrderedMap.SumValuesSet(m, k, before + v);
    OrderedMap.Set(m, k, before + v)
  }

  /** `count_flights` after the rows: each row counts for its origin and
      then for its destination. */
  function CountFlights(rows: seq<Flight>): (r: Counts)
    ensures |r| <= 2 * |rows|
  {
    if |rows| == 0 then []
    else
      var last := rows[|rows| - 1];
      Tally(Tally(CountFlights(rows[..|rows| - 1]), last.origin, last.value), last.destination, last.value)
  }

  /** The flights of airport `a`: the values of the rows leaving it plus the
      values of the rows arriving at it (a row from `a` to `a` counts twice). */
  function Total(rows: seq<Flight>, a: string): int
  {
    if |rows| == 0 then 0
    else
      var last := rows[|rows| - 1];
      Total(rows[..|rows| - 1], a) + (if last.origin == a then last.value else 0)
        + (if last.destination == a then last.value else 0)
  }

  /** `count_flights` has one entry per airport with data, holding its
      total; the totals add up to twice the flights of all rows, since every
      row is counted at both of its ends. */
  lemma CountFlightsTotals(rows: seq<Flight>)
    ensures OrderedMap.KeysDistinct(CountFlights(rows))
    ensures forall a :: OrderedMap.Has(CountFlights(rows), a) <==> a in AirportsWithData(rows)
    ensures forall a :: OrderedMap.Has(CountFlights(rows), a) ==> OrderedMap.Get(CountFlights(rows), a) == Total(rows, a)
    ensures OrderedMap.SumValues(CountFlights(rows)) == 2 * SumRows(rows)
  {
    CountFlightsDistinct(rows);
    CountFlightsKeys(rows);
    forall a | OrderedMap.Has(CountFlights(rows), a)
      ensures OrderedMap.Get(CountFlights(rows), a) == Total(rows, a)
    {
      CountFlightsTotal(rows, a);
    }
    CountFlightsSum(rows);
  }

  lemma {:induction false} CountFlightsDistinct(rows: seq<Flight>)
    ensures OrderedMap.KeysDistinct(CountFlights(rows))
  {
    if |rows| > 0 {
      CountFlightsDistinct(rows[..|rows| - 1]);
    }
  }

  lemma {:induction false} CountFlightsKeys(rows: seq<Flight>)
    ensures forall a :: OrderedMap.Has(CountFlights(rows), a) <==> a in AirportsWithData(rows)
  {
    if |rows| > 0 {
      var front := rows[..|rows| - 1];
      var last := rows[|rows| - 1];
      CountFlightsKeys(front);
      assert AirportsWithData(rows) == AirportsWithData(front) + {last.origin, last.destination};
    }
  }

  lemma {:induction false} CountFlightsTotal(rows: seq<Flight>, a: string)
    requires OrderedMap.Has(CountFlights(rows), a)
    ensures OrderedMap.Get(CountFlights(rows), a) == Total(rows, a)
  {
    var front := rows[..|rows| - 1];
    var last := rows[|rows| - 1];
    var c0 := CountFlights(front);
    var c1 := Tally(c0, last.origin, last.value);
    var before := if OrderedMap.Has(c0, a) then OrderedMap.Get(c0, a) else 0;
    assert before == Total(front, a) by {
      if OrderedMap.Has(c0, a) {
        CountFlightsTotal(front, a);
      } else {
        CountFlightsKeys(front);
        TotalWithout(front, a);
      }
    }
    TallyAt(c0, last.origin, last.value, a);
    TallyAt(c1, last.destination, last.value, a);
  }

  /** What a tally step leaves in any entry. */
  lemma TallyAt(m: Counts, k: string, v: int, a: string)
    ensures var r := Tally(m, k, v);
      (OrderedMap.Has(r, a) <==> OrderedMap.Has(m, a) || a == k)
      && (OrderedMap.Has(r, a) ==> OrderedMap.Get(r, a) == (if OrderedMap.Has(m, a) then OrderedMap.Get(m, a) else 0) + (if a == k then v else 0))
  {
  }

  lemma {:induction false} CountFlightsSum(rows: seq<Flight>)
    ensures OrderedMap.SumValues(CountFlights(rows)) == 2 * SumRows(rows)
  {
    if |rows| > 0 {
      CountFlightsSum(rows[..|rows| - 1]);
    }
  }

  /** An airport that no row mentions has no flights. */
  lemma {:induction false} TotalWithout(rows: seq<Flight>, a: string)
    requires a !in AirportsWithData(rows)
    ensures Total(rows, a) == 0
  {
    if |rows| > 0 {
      var front := rows[..|rows| - 1];
      assert AirportsWithData(rows) == AirportsWithData(front) + {rows[|rows| - 1].origin, rows[|rows| - 1].destination};
      TotalWithout(front, a);
    }
  }

  /* ---------------------------------------------------------------------
     flights_only_once
     --------------------------------------------------------------------- */

  /** The key of the route from `a` to `b`: the two codes joined by `-`. */
  function Key(a: string, b: string): (r: string)
    ensures |r| == |a| + 1 + |b|
  {
    assert [a, b][1..] == [b];
    assert Strings.Join([b], "-") == b;
    Strings.Join([a, b], "-")
  }

  /** The key is the origin, a dash, and the destination. */
  lemma KeyText(a: string, b: string)
    ensures Key(a, b) == a + "-" + b
  {
    assert [a, b][1..] == [b];
    assert Strings.Join([b], "-") == b;
    assert Key(a, b) == a + "-" + Strings.Join([b], "-");
  }

  /** An airport code that the key separator cannot cut. */
  predicate DashFree(s: string)
  {
    '-' !in s
  }

  predicate CodesDashFree(rows: seq<Flight>)
  {
    forall i :: 0 <= i < |rows| ==> DashFree(rows[i].origin) && DashFree(rows[i].destination)
  }

  /** Splitting a key at `-` gives back its two airports. */
  lemma KeySplits(a: string, b: string)
    requires DashFree(a) && DashFree(b)
    ensures Strings.Split(Key(a, b), '-') == [a, b]
  {
    Strings.SplitJoin([a, b], '-');
  }

  /** Two keys of dash-free codes are equal only for the same route. */
  lemma KeyInjective(a: string, b: string, c: string, d: string)
    requires DashFree(a) && DashFree(b) && DashFree(c) && DashFree(d)
    ensures Key(a, b) == Key(c, d) <==> a == c && b == d
  {
    KeySplits(a, b);
    KeySplits(c, d);
  }

  type Routes = OrderedMap.OMap<string, int>

  /** One row of the `flights_only_once` loop: when the reverse key is
      already there the row's flights are added to it; otherwise the row's
      own key is set to the row's flights. */
  function Merge(m: Routes, f: Flight): (r: Routes)
    ensures |r| <= |m| + 1
    ensures var back := Key(f.destination, f.origin);
      OrderedMap.Has(m, back) ==> OrderedMap.Has(r, back) && OrderedMap.Get(r, back) == OrderedMap.Get(m, back) + f.value
    ensures var back, own := Key(f.destination, f.origin), Key(f.origin, f.destination);
      !OrderedMap.Has(m, back) ==> OrderedMap.Has(r, own) && OrderedMap.Get(r, own) == f.value
    ensures var back := Key(f.destination, f.origin);
      OrderedMap.Has(m, back) ==> forall k :: k != back ==>
        (OrderedMap.Has(r, k) <==> OrderedMap.Has(m, k)) && (OrderedMap.Has(m, k) ==> OrderedMap.Get(r, k) == OrderedMap.Get(m, k))
    ensures var back, own := Key(f.destination, f.origin), Key(f.origin, f.destination);
      !OrderedMap.Has(m, back) ==> forall k :: k != own ==>
        (OrderedMap.Has(r, k) <==> OrderedMap.Has(m, k)) && (OrderedMap.Has(m, k) ==> OrderedMap.Get(r, k) == OrderedMap.Get(m, k))
  {
    var back := Key(f.destination, f.origin);
    if OrderedMap.Has(m, back) then OrderedMap.Set(m, back, OrderedMap.Get(m, back) + f.value)
    else OrderedMap.Set(m, Key(f.origin, f.destination), f.value)
  }

  /** `flights_only_once` after the rows. */
  function FlightsOnce(rows: seq<Flight>): (r: Routes)
    ensures |r| <= |rows|
  {
    if |rows| == 0 then [] else Merge(FlightsOnce(rows[..|rows| - 1]), rows[|rows| - 1])
  }

  /** A route listed twice in the same direction is not summed: the second
      row finds no reverse key and SETS its own key, so only its value
      survives. */
  lemma RepeatedRouteOverwrites()
    ensures FlightsOnce([Flight("A", "B", 5), Flight("A", "B", 7)]) == [("A-B", 7)]
  {
    var f1, f2 := Flight("A", "B", 5), Flight("A", "B", 7);
    assert Key("A", "B") == "A-B" && Key("B", "A") == "B-A";
    var m1 := [("A-B", 5)];
    assert FlightsOnce([f1]) == m1 by {
      assert [f1][..0] == [];
      assert Merge([], f1) == m1;
    }
    assert Merge(m1, f2) == [("A-B", 7)] by {
      assert !OrderedMap.Has(m1, "B-A");
      assert OrderedMap.Find(m1, "A-B") == Some(0);
    }
    assert [f1, f2][..1] == [f1];
  }

  /** `k` is the key of some row's own direction. */
  ghost predicate RowKey(rows: seq<Flight>, k: string)
  {
    exists i :: 0 <= i < |rows| && k == Key(rows[i].origin, rows[i].destination)
  }

  /** The route of `f` has an entry under one of its two keys. */
  ghost predicate Covered(m: Routes, f: Flight)
  {
    OrderedMap.Has(m, Key(f.origin, f.destination)) || OrderedMap.Has(m, Key(f.destination, f.origin))
  }

  /** The route of `f` does not have entries under both of its keys. */
  ghost predicate OneWay(m: Routes, f: Flight)
  {
    f.origin == f.destination
    || !(OrderedMap.Has(m, Key(f.origin, f.destination)) && OrderedMap.Has(m, Key(f.destination, f.origin)))
  }

  /** The invariant of the merge loop that holds for any rows. */
  ghost predicate RoutesInvariant(m: Routes, rows: seq<Flight>)
  {
    && OrderedMap.KeysDistinct(m)
    && (forall k :: OrderedMap.Has(m, k) ==> RowKey(rows, k))
    && (forall i :: 0 <= i < |rows| ==> Covered(m, rows[i]))
    && (forall i :: 0 <= i < |rows| ==> OneWay(m, rows[i]))
  }

  lemma RowKeyGrows(rows: seq<Flight>, f: Flight, k: string)
    requires RowKey(rows, k)
    ensures RowKey(rows + [f], k)
  {
    var i :| 0 <= i < |rows| && k == Key(rows[i].origin, rows[i].destination);
    assert (rows + [f])[i] == rows[i];
  }

  /** A key of the map names a row; with dash-free codes that row runs from
      `a` to `b` when the key is `Key(a, b)`. */
  lemma RowOfKey(rows: seq<Flight>, a: string, b: string) returns (j: nat)
    requires CodesDashFree(rows) && DashFree(a) && DashFree(b)
    requires RowKey(rows, Key(a, b))
    ensures j < |rows| && rows[j].origin == a && rows[j].destination == b
  {
    var i :| 0 <= i < |rows| && Key(a, b) == Key(rows[i].origin, rows[i].destination);
    KeyInjective(a, b, rows[i].origin, rows[i].destination);
    j := i;
  }

  /** Every row's route keeps an entry, under exactly one of its keys when
      its two ends differ, and every entry is the key of a row. */
  lemma {:induction false} FlightsOnceRoutes(rows: seq<Flight>)
    requires CodesDashFree(rows)
    ensures RoutesInvariant(FlightsOnce(rows), rows)
  {
    if |rows| > 0 {
      var front := rows[..|rows| - 1];
      var f := rows[|rows| - 1];
      assert front + [f] == rows;
      assert CodesDashFree(front);
      FlightsOnceRoutes(front);
      MergeKeepsRoutes(FlightsOnce(front), front, f);
    }
  }

  lemma MergeKeepsRoutes(m: Routes, rows: seq<Flight>, f: Flight)
    requires CodesDashFree(rows + [f])
    requires RoutesInvariant(m, rows)
    ensures RoutesInvariant(Merge(m, f), rows + [f])
  {
    var rows' := rows + [f];
    var m' := Merge(m, f);
    var o, d := f.origin, f.destination;
    assert rows'[|rows|] == f;
    assert forall i :: 0 <= i < |rows| ==> rows'[i] == rows[i];
    assert CodesDashFree(rows) by {
      forall i | 0 <= i < |rows| ensures DashFree(rows[i].origin) && DashFree(rows[i].destination) {
        assert rows'[i] == rows[i];
      }
    }
    assert DashFree(o) && DashFree(d);
    KeyInjective(o, d, d, o);
    forall k | OrderedMap.Has(m', k) ensures RowKey(rows', k) {
      if OrderedMap.Has(m, k) {
        RowKeyGrows(rows, f, k);
      } else {
        assert k == Key(o, d);
      }
    }
    forall i | 0 <= i < |rows'| ensures OneWay(m', rows'[i]) {
      var g := rows'[i];
      if i < |rows| && g.origin != g.destination && !OrderedMap.Has(m, Key(d, o)) {
        KeyInjective(g.origin, g.destination, o, d);
        KeyInjective(g.destination, g.origin, o, d);
        assert OneWay(m, g);
      } else if i < |rows| {
        assert OneWay(m, g);
      } else if o != d && OrderedMap.Has(m, Key(d, o)) && OrderedMap.Has(m, Key(o, d)) {
        var j := RowOfKey(rows, o, d);
      }
    }
  }

  /* ---------------------------------------------------------------------
     the merged values
     --------------------------------------------------------------------- */

  /** The row `f` runs between `a` and `b`, in either direction. */
  predicate SamePair(f: Flight, a: string, b: string)
  {
    (f.origin == a && f.destination == b) || (f.origin == b && f.destination == a)
  }

  /** The flights between `a` and `b`, both directions together. */
  function PairSum(rows: seq<Flight>, a: string, b: string): int
  {
    if |rows| == 0 then 0
    else PairSum(rows[..|rows| - 1], a, b) + (if SamePair(rows[|rows| - 1], a, b) then rows[|rows| - 1].value else 0)
  }

  /** The entry the route between `a` and `b` has in the map, under either
      key; 0 when it has none. */
  function RouteValue(m: Routes, a: string, b: string): int
  {
    if OrderedMap.Has(m, Key(a, b)) then OrderedMap.Get(m, Key(a, b))
    else if OrderedMap.Has(m, Key(b, a)) then OrderedMap.Get(m, Key(b, a))
    else 0
  }

  /** No route is listed twice in the same direction. */
  ghost predicate NoRepeatedRoute(rows: seq<Flight>)
  {
    forall i, j :: 0 <= i < j < |rows| ==> rows[i].origin != rows[j].origin || rows[i].destination != rows[j].destination
  }

  ghost predicate Holds(m: Routes, rows: seq<Flight>, f: Flight)
  {
    RouteValue(m, f.origin, f.destination) == PairSum(rows, f.origin, f.destination)
  }

  /** The invariant of the merge loop about values, for rows that list
      every route at most once per direction. */
  ghost predicate ValuesInvariant(m: Routes, rows: seq<Flight>)
  {
    && (forall i :: 0 <= i < |rows| ==> Holds(m, rows, rows[i]))
    && OrderedMap.SumValues(m) == SumRows(rows)
  }

  lemma {:induction false} PairSumSymmetric(rows: seq<Flight>, a: string, b: string)
    ensures PairSum(rows, a, b) == PairSum(rows, b, a)
  {
    if |rows| > 0 {
      PairSumSymmetric(rows[..|rows| - 1], a, b);
    }
  }

  lemma {:induction false} PairSumNone(rows: seq<Flight>, a: string, b: string)
    requires forall i :: 0 <= i < |rows| ==> !SamePair(rows[i], a, b)
    ensures PairSum(rows, a, b) == 0
  {
    if |rows| > 0 {
      var front := rows[..|rows| - 1];
      assert forall i :: 0 <= i < |front| ==> front[i] == rows[i];
      PairSumNone(front, a, b);
    }
  }

  /** When no route is repeated in the same direction, the merged entry of
      every route holds the flights of both its directions, and the merged
      entries hold all the flights of the rows. */
  lemma {:induction false} FlightsOnceValues(rows: seq<Flight>)
    requires CodesDashFree(rows) && NoRepeatedRoute(rows)
    ensures ValuesInvariant(FlightsOnce(rows), rows)
  {
    if |rows| > 0 {
      var front := rows[..|rows| - 1];
      var f := rows[|rows| - 1];
      assert front + [f] == rows;
      assert CodesDashFree(front);
      assert NoRepeatedRoute(front);
      FlightsOnceValues(front);
      FlightsOnceRoutes(front);
      MergeKeepsValues(FlightsOnce(front), front, f);
    }
  }

  lemma MergeKeepsValues(m: Routes, rows: seq<Flight>, f: Flight)
    requires CodesDashFree(rows + [f]) && NoRepeatedRoute(rows + [f])
    requires RoutesInvariant(m, rows) && ValuesInvariant(m, rows)
    ensures ValuesInvariant(Merge(m, f), rows + [f])
  {
    var rows' := rows + [f];
    assert rows'[|rows|] == f;
    assert forall i :: 0 <= i < |rows| ==> rows'[i] == rows[i];
    assert CodesDashFree(rows) by {
      forall i | 0 <= i < |rows| ensures DashFree(rows[i].origin) && DashFree(rows[i].destination) {
        assert rows'[i] == rows[i];
      }
    }
    if OrderedMap.Has(m, Key(f.destination, f.origin)) {
      MergeIntoReverse(m, rows, f);
    } else {
      assert !OrderedMap.Has(m, Key(f.origin, f.destination)) by {
        if OrderedMap.Has(m, Key(f.origin, f.destination)) {
          var j := RowOfKey(rows, f.origin, f.destination);
        }
      }
      MergeAsNew(m, rows, f);
    }
  }

  /** A row whose reverse route is already merged adds to that entry. */
  lemma MergeIntoReverse(m: Routes, rows: seq<Flight>, f: Flight)
    requires CodesDashFree(rows) && DashFree(f.origin) && DashFree(f.destination)
    requires RoutesInvariant(m, rows) && ValuesInvariant(m, rows)
    requires OrderedMap.Has(m, Key(f.destination, f.origin))
    ensures ValuesInvariant(Merge(m, f), rows + [f])
  {
    ReverseHolds(m, rows, f);
    ReverseSum(m, rows, f);
  }

  lemma SumRowsSnoc(rows: seq<Flight>, f: Flight)
    ensures SumRows(rows + [f]) == SumRows(rows) + f.value
  {
    assert (rows + [f])[..|rows|] == rows;
  }

  lemma ReverseSum(m: Routes, rows: seq<Flight>, f: Flight)
    requires OrderedMap.Has(m, Key(f.destination, f.origin))
    requires OrderedMap.SumValues(m) == SumRows(rows)
    ensures OrderedMap.SumValues(Merge(m, f)) == SumRows(rows + [f])
  {
    var back := Key(f.destination, f.origin);
    OrderedMap.SumValuesSet(m, back, OrderedMap.Get(m, back) + f.value);
    SumRowsSnoc(rows, f);
  }

  lemma ReverseHolds(m: Routes, rows: seq<Flight>, f: Flight)
    requires CodesDashFree(rows) && DashFree(f.origin) && DashFree(f.destination)
    requires RoutesInvariant(m, rows) && ValuesInvariant(m, rows)
    requires OrderedMap.Has(m, Key(f.destination, f.origin))
    ensures forall i :: 0 <= i < |rows + [f]| ==> Holds(Merge(m, f), rows + [f], (rows + [f])[i])
  {
    var rows' := rows + [f];
    var m' := Merge(m, f);
    forall i | 0 <= i < |rows| ensures Holds(m', rows', rows'[i]) {
      assert rows'[i] == rows[i];
      assert Holds(m, rows, rows[i]) && OneWay(m, rows[i]);
      ReverseUpdateKeeps(m, rows, f, rows[i]);
    }
    assert rows'[|rows|] == f;
    ReverseHoldsLast(m, rows, f);
  }

  /** The merged row itself: its route now holds the reverse entry plus its value. */
  lemma ReverseHoldsLast(m: Routes, rows: seq<Flight>, f: Flight)
    requires CodesDashFree(rows) && DashFree(f.origin) && DashFree(f.destination)
    requires RoutesInvariant(m, rows) && ValuesInvariant(m, rows)
    requires OrderedMap.Has(m, Key(f.destination, f.origin))
    ensures Holds(Merge(m, f), rows + [f], f)
  {
    var rows' := rows + [f];
    var o, d := f.origin, f.destination;
    assert rows'[..|rows|] == rows;
    KeyInjective(o, d, d, o);
    var j := RowOfKey(rows, d, o);
    assert Holds(m, rows, rows[j]);
    assert OneWay(m, rows[j]);
    PairSumSymmetric(rows, o, d);
  }

  lemma ReverseUpdateKeeps(m: Routes, rows: seq<Flight>, f: Flight, e: Flight)
    requires DashFree(f.origin) && DashFree(f.destination) && DashFree(e.origin) && DashFree(e.destination)
    requires OrderedMap.Has(m, Key(f.destination, f.origin))
    requires Holds(m, rows, e) && OneWay(m, e)
    ensures Holds(Merge(m, f), rows + [f], e)
  {
    var o, d := f.origin, f.destination;
    assert (rows + [f])[..|rows|] == rows;
    KeyInjective(e.origin, e.destination, d, o);
    KeyInjective(e.destination, e.origin, d, o);
    PairSumSymmetric(rows, e.origin, e.destination);
  }

  /** A row whose route is not merged yet gets an entry of its own, at the
      end of the map. */
  lemma MergeAsNew(m: Routes, rows: seq<Flight>, f: Flight)
    requires CodesDashFree(rows) && DashFree(f.origin) && DashFree(f.destination)
    requires RoutesInvariant(m, rows) && ValuesInvariant(m, rows)
    requires !OrderedMap.Has(m, Key(f.destination, f.origin)) && !OrderedMap.Has(m, Key(f.origin, f.destination))
    ensures ValuesInvariant(Merge(m, f), rows + [f])
  {
    var o, d, v := f.origin, f.destination, f.value;
    assert Merge(m, f) == m + [(Key(o, d), v)];
    OrderedMap.SumValuesAppend(m, (Key(o, d), v));
    NewPair(m, rows, f);
    AppendHolds(m, rows, f);
  }

  /** A route with neither key in the map has no earlier rows. */
  lemma NewPair(m: Routes, rows: seq<Flight>, f: Flight)
    requires forall i :: 0 <= i < |rows| ==> Covered(m, rows[i])
    requires !OrderedMap.Has(m, Key(f.destination, f.origin)) && !OrderedMap.Has(m, Key(f.origin, f.destination))
    ensures forall i :: 0 <= i < |rows| ==> !SamePair(rows[i], f.origin, f.destination)
    ensures PairSum(rows, f.origin, f.destination) == 0
  {
    forall i | 0 <= i < |rows| ensures !SamePair(rows[i], f.origin, f.destination) {
      assert Covered(m, rows[i]);
    }
    PairSumNone(rows, f.origin, f.destination);
  }

  lemma AppendHolds(m: Routes, rows: seq<Flight>, f: Flight)
    requires CodesDashFree(rows) && DashFree(f.origin) && DashFree(f.destination)
    requires forall i :: 0 <= i < |rows| ==> Holds(m, rows, rows[i])
    requires forall i :: 0 <= i < |rows| ==> !SamePair(rows[i], f.origin, f.destination)
    requires PairSum(rows, f.origin, f.destination) == 0
    requires !OrderedMap.Has(m, Key(f.origin, f.destination))
    ensures forall i :: 0 <= i < |rows + [f]| ==> Holds(m + [(Key(f.origin, f.destination), f.value)], rows + [f], (rows + [f])[i])
  {
    var rows' := rows + [f];
    var m' := m + [(Key(f.origin, f.destination), f.value)];
    forall i | 0 <= i < |rows| ensures Holds(m', rows', rows'[i]) {
      assert rows'[i] == rows[i];
      AppendKeeps(m, rows, f, rows[i]);
    }
    assert rows'[|rows|] == f;
    AppendHoldsLast(m, rows, f);
  }

  /** The appended row: its new entry holds its value, the only flights of its route. */
  lemma AppendHoldsLast(m: Routes, rows: seq<Flight>, f: Flight)
    requires PairSum(rows, f.origin, f.destination) == 0
    requires !OrderedMap.Has(m, Key(f.origin, f.destination))
    ensures Holds(m + [(Key(f.origin, f.destination), f.value)], rows + [f], f)
  {
    var m' := m + [(Key(f.origin, f.destination), f.value)];
    assert (rows + [f])[..|rows|] == rows;
    OrderedMap.FindAt(m', Key(f.origin, f.destination), |m|);
  }

  lemma AppendKeeps(m: Routes, rows: seq<Flight>, f: Flight, e: Flight)
    requires DashFree(f.origin) && DashFree(f.destination) && DashFree(e.origin) && DashFree(e.destination)
    requires Holds(m, rows, e) && !SamePair(e, f.origin, f.destination)
    ensures Holds(m + [(Key(f.origin, f.destination), f.value)], rows + [f], e)
  {
    var o, d := f.origin, f.destination;
    var entry := (Key(o, d), f.value);
    assert (rows + [f])[..|rows|] == rows;
    KeyInjective(e.origin, e.destination, o, d);
    KeyInjective(e.destination, e.origin, o, d);
    OrderedMap.FindAppend(m, entry, Key(e.origin, e.destination));
    OrderedMap.FindAppend(m, entry, Key(e.destination, e.origin));
  }

  /* ---------------------------------------------------------------------
     data_flights_once and the nodes
     --------------------------------------------------------------------- */

  /** A link of the force graph. `destination` is `None` where the key has
      no `-`, for which the page reads `undefined`. */
  datatype Link = Link(origin: string, destination: Option<string>, value: int)

  /** One entry of `flights_only_once`, its key split back at `-`. */
  function LinkOf(entry: (string, int)): (r: Link)
    ensures r.value == entry.1
    ensures r.destination.Some? <==> '-' in entry.0
    ensures '-' !in entry.0 ==> r.origin == entry.0
  {
    var parts := Strings.Split(entry.0, '-');
    Strings.SplitCount(entry.0, '-');
    Strings.SplitWithout(entry.0, '-');
    Link(parts[0], if |parts| >= 2 then Some(parts[1]) else None, entry.1)
  }

  /** `data_flights_once`: the merged entries in insertion order. */
  function Links(m: Routes): (r: seq<Link>)
    ensures |r| == |m|
    ensures forall j :: 0 <= j < |m| ==> r[j].value == m[j].1
  {
    seq(|m|, j requires 0 <= j < |m| => LinkOf(m[j]))
  }

  lemma FindDistinct(m: Routes, j: nat)
    requires OrderedMap.KeysDistinct(m) && j < |m|
    ensures OrderedMap.Has(m, m[j].0) && OrderedMap.Get(m, m[j].0) == m[j].1
  {
    OrderedMap.FindAt(m, m[j].0, j);
  }

  /** Every link runs along a route of the rows between two airports with
      data, and splitting its key gives back exactly the key's two codes. */
  lemma LinksFollowRows(rows: seq<Flight>)
    requires CodesDashFree(rows)
    ensures var m := FlightsOnce(rows); var links := Links(m);
      |links| == |m|
      && forall j :: 0 <= j < |links| ==>
           && links[j].destination.Some?
           && Key(links[j].origin, links[j].destination.value) == m[j].0
           && links[j].value == m[j].1
           && (exists i :: 0 <= i < |rows| && rows[i].origin == links[j].origin && rows[i].destination == links[j].destination.value)
  {
    var m := FlightsOnce(rows);
    FlightsOnceRoutes(rows);
    forall j | 0 <= j < |m|
      ensures var l := Links(m)[j];
        && l.destination.Some?
        && Key(l.origin, l.destination.value) == m[j].0
        && (exists i :: 0 <= i < |rows| && rows[i].origin == l.origin && rows[i].destination == l.destination.value)
    {
      FindDistinct(m, j);
      assert RowKey(rows, m[j].0);
      var i :| 0 <= i < |rows| && m[j].0 == Key(rows[i].origin, rows[i].destination);
      KeySplits(rows[i].origin, rows[i].destination);
    }
  }

  /** No route is drawn twice: two links never join the same two airports,
      in the same direction or reversed. */
  lemma LinksOncePerRoute(rows: seq<Flight>)
    requires CodesDashFree(rows)
    ensures var links := Links(FlightsOnce(rows));
      forall j, k :: 0 <= j < k < |links| ==>
        !(links[j].origin == links[k].origin && links[j].destination == links[k].destination)
        && !(Some(links[j].origin) == links[k].destination && links[j].destination == Some(links[k].origin))
  {
    var m := FlightsOnce(rows);
    var links := Links(m);
    FlightsOnceRoutes(rows);
    LinksFollowRows(rows);
    forall j, k | 0 <= j < k < |links|
      ensures !(links[j].origin == links[k].origin && links[j].destination == links[k].destination)
      ensures !(Some(links[j].origin) == links[k].destination && links[j].destination == Some(links[k].origin))
    {
      assert m[j].0 != m[k].0;
      var a, b := links[j].origin, links[j].destination.value;
      var i :| 0 <= i < |rows| && rows[i].origin == a && rows[i].destination == b;
      FindDistinct(m, j);
      FindDistinct(m, k);
      assert OneWay(m, rows[i]);
    }
  }

  /** The value of every link is the flights between its two airports in
      both directions, when no route is listed twice in one direction. */
  lemma LinkValues(rows: seq<Flight>)
    requires CodesDashFree(rows) && NoRepeatedRoute(rows)
    ensures var links := Links(FlightsOnce(rows));
      (forall j :: 0 <= j < |links| ==>
        links[j].destination.Some? && links[j].value == PairSum(rows, links[j].origin, links[j].destination.value))
      && OrderedMap.SumValues(FlightsOnce(rows)) == SumRows(rows)
  {
    var m := FlightsOnce(rows);
    var links := Links(m);
    FlightsOnceRoutes(rows);
    FlightsOnceValues(rows);
    LinksFollowRows(rows);
    forall j | 0 <= j < |links|
      ensures links[j].value == PairSum(rows, links[j].origin, links[j].destination.value)
    {
      var a, b := links[j].origin, links[j].destination.value;
      var i :| 0 <= i < |rows| && rows[i].origin == a && rows[i].destination == b;
      FindDistinct(m, j);
      assert Holds(m, rows, rows[i]);
    }
  }

  /** A row of the airports table. */
  datatype Airport = Airport(id: string, state: string, name: string)

  /** A node handed to the force graph. */
  datatype Node = Node(id: string, state: string, name: string, value: int)

  /** `nodes`: the airports with data, in the order of the airports table,
      each with its `count_flights` entry. */
  function Nodes(all: seq<Airport>, rows: seq<Flight>): (r: seq<Node>)
    ensures |r| <= |all|
    ensures forall j :: 0 <= j < |r| ==> r[j].id in AirportsWithData(rows) && r[j].value == Total(rows, r[j].id)
  {
    if |all| == 0 then []
    else
      var front := Nodes(all[..|all| - 1], rows);
      var x := all[|all| - 1];
      if x.id in AirportsWithData(rows) then
        CountFlightsTotals(rows);
        front + [Node(x.id, x.state, x.name, OrderedMap.Get(CountFlights(rows), x.id))]
      else front
  }

  /** The node of one airport: present exactly when the airport has data,
      carrying its code, state, name and total. */
  lemma NodesSingle(x: Airport, rows: seq<Flight>)
    ensures Nodes([x], rows) ==
      if x.id in AirportsWithData(rows) then [Node(x.id, x.state, x.name, Total(rows, x.id))] else []
  {
    assert [x][..0] == [];
    if x.id in AirportsWithData(rows) {
      CountFlightsTotals(rows);
    }
  }

  /** `filter` then `map` works list by list: the nodes of a concatenation
      are the nodes of the first list followed by those of the second, so
      the nodes keep the order of the airports table. */
  lemma {:induction false} NodesAppend(a: seq<Airport>, b: seq<Airport>, rows: seq<Flight>)
    ensures Nodes(a + b, rows) == Nodes(a, rows) + Nodes(b, rows)
    decreases |b|
  {
    if |b| == 0 {
      assert a + b == a;
    } else {
      var b', y := b[..|b| - 1], b[|b| - 1];
      assert (a + b)[..|a + b| - 1] == a + b';
      assert (a + b)[|a + b| - 1] == y;
      NodesAppend(a, b', rows);
    }
  }

  function Ids(all: seq<Airport>): set<string>
  {
    set i | 0 <= i < |all| :: all[i].id
  }

  function NodeIds(nodes: seq<Node>): set<string>
  {
    set j | 0 <= j < |nodes| :: nodes[j].id
  }

  /** The nodes are exactly the listed airports that have data. */
  lemma {:induction false} NodeIdsAre(all: seq<Airport>, rows: seq<Flight>)
    ensures NodeIds(Nodes(all, rows)) == Ids(all) * AirportsWithData(rows)
  {
    if |all| > 0 {
      var front := all[..|all| - 1];
      var x := all[|all| - 1];
      NodeIdsAre(front, rows);
      IdsSnoc(front, x);
      assert front + [x] == all;
      var nf := Nodes(front, rows);
      if x.id in AirportsWithData(rows) {
        CountFlightsKeys(rows);
        var n := Node(x.id, x.state, x.name, OrderedMap.Get(CountFlights(rows), x.id));
        assert Nodes(all, rows) == nf + [n];
        NodeIdsSnoc(nf, n);
      }
    }
  }

  lemma IdsSnoc(all: seq<Airport>, x: Airport)
    ensures Ids(all + [x]) == Ids(all) + {x.id}
  {
    var all' := all + [x];
    assert all'[|all|] == x;
    forall a | a in Ids(all') ensures a in Ids(all) + {x.id} {
      var i :| 0 <= i < |all'| && all'[i].id == a;
      if i < |all| { assert all'[i] == all[i]; }
    }
    forall a | a in Ids(all) ensures a in Ids(all') {
      var i :| 0 <= i < |all| && all[i].id == a;
      assert all'[i] == all[i];
    }
  }

  lemma NodeIdsSnoc(nodes: seq<Node>, n: Node)
    ensures NodeIds(nodes + [n]) == NodeIds(nodes) + {n.id}
  {
    var nodes' := nodes + [n];
    assert nodes'[|nodes|] == n;
    forall a | a in NodeIds(nodes') ensures a in NodeIds(nodes) + {n.id} {
      var j :| 0 <= j < |nodes'| && nodes'[j].id == a;
      if j < |nodes| { assert nodes'[j] == nodes[j]; }
    }
    forall a | a in NodeIds(nodes) ensures a in NodeIds(nodes') {
      var j :| 0 <= j < |nodes| && nodes[j].id == a;
      assert nodes'[j] == nodes[j];
    }
  }

  /** When every airport of the flights table is listed, every link ends at
      two nodes, so the force layout finds a node for each endpoint. */
  lemma LinksReachNodes(all: seq<Airport>, rows: seq<Flight>)
    requires CodesDashFree(rows)
    requires AirportsWithData(rows) <= Ids(all)
    ensures var links := Links(FlightsOnce(rows));
      forall j :: 0 <= j < |links| ==>
        links[j].origin in NodeIds(Nodes(all, rows))
        && links[j].destination.Some? && links[j].destination.value in NodeIds(Nodes(all, rows))
  {
    var links := Links(FlightsOnce(rows));
    LinksFollowRows(rows);
    NodeIdsAre(all, rows);
    forall j | 0 <= j < |links|
      ensures links[j].origin in AirportsWithData(rows) && links[j].destination.value in AirportsWithData(rows)
    {
      var i :| 0 <= i < |rows| && rows[i].origin == links[j].origin && rows[i].destination == links[j].destination.value;
      AirportsWithDataMembers(rows, links[j].origin);
      AirportsWithDataMembers(rows, links[j].destination.value);
    }
  }
}

