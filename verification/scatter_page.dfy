/** The logic of the scatter-plot page (examples/scatter/main.js): number
    formatting, clamping, the ids of the loaded rows, the ordered selection
    of cars shown in the radar chart, the choice between the empty and the
    full radar chart, and the layout of the legend under it. */
module ScatterPage {
  import opened Wrappers
  import Strings
  import OrderedMap
  import opened RadarDomains
  import RadarChart
  import RadarOptions

  /* ---------------------------------------------------------------------
     numberWithCommas
     --------------------------------------------------------------------- */

  /** Where `/\B(?=(\d{3})+(?!\d))/g` matches in a string of `len` digits:
      at a position strictly inside the string (`\B` between two digits)
      followed by a positive multiple of three digits up to the end. */
  predicate CommaBefore(len: nat, p: nat)
  {
    0 < p < len && (len - p) % 3 == 0
  }

  /** The replacement of every match by `","`, from position `p` on. */
  function InsertCommas(s: string, p: nat): (r: string)
    ensures |r| >= |s| - p
    decreases |s| - p
  {
    if p >= |s| then "" else (if CommaBefore(|s|, p) then "," else "") + [s[p]] + InsertCommas(s, p + 1)
  }

  /** No comma is put in front of the first character (`\B` needs a digit
      on its left) or after the last one (a match needs three digits on its
      right), and no character is dropped. */
  lemma {:induction false} InsertCommasEnds(s: string, p: nat)
    requires p < |s|
    ensures var r := InsertCommas(s, p);
      |r| >= |s| - p && r[|r| - 1] == s[|s| - 1] && (p == 0 ==> r[0] == s[0])
    decreases |s| - p
  {
    var head := (if CommaBefore(|s|, p) then "," else "") + [s[p]];
    var rest := InsertCommas(s, p + 1);
    assert InsertCommas(s, p) == head + rest;
    if p + 1 < |s| {
      InsertCommasEnds(s, p + 1);
    } else {
      assert rest == "";
    }
  }

  /** Groups of three digits counted from the end; the first group holds
      what is left over, one to three characters. */
  function Chunks(s: string): (r: seq<string>)
    ensures |r| >= 1
    ensures |r| == 1 <==> |s| <= 3
    ensures Strings.AllDigits(s) ==> forall k :: 0 <= k < |r| ==> Strings.AllDigits(r[k])
    decreases |s|
  {
    if |s| <= 3 then [s] else Chunks(s[..|s| - 3]) + [s[|s| - 3..]]
  }

  lemma {:induction false} ChunkSizes(s: string)
    requires |s| >= 1
    ensures 1 <= |Chunks(s)[0]| <= 3
    ensures forall k :: 1 <= k < |Chunks(s)| ==> |Chunks(s)[k]| == 3
    decreases |s|
  {
    if |s| > 3 {
      ChunkSizes(s[..|s| - 3]);
    }
  }

  /** The groups, written one after the other, give the string back. */
  lemma {:induction false} ChunksConcat(s: string)
    ensures Strings.Join(Chunks(s), "") == s
    decreases |s|
  {
    if |s| > 3 {
      var front := s[..|s| - 3];
      ChunksConcat(front);
      Strings.JoinSnoc(Chunks(front), s[|s| - 3..], "");
      assert front + s[|s| - 3..] == s;
    }
  }

  lemma {:induction false} InsertNoCommas(s: string, p: nat)
    requires |s| <= 3 && p <= |s|
    ensures InsertCommas(s, p) == s[p..]
    decreases |s| - p
  {
    if p < |s| {
      InsertNoCommas(s, p + 1);
      assert [s[p]] + s[p + 1..] == s[p..];
    }
  }

  lemma {:induction false} InsertPrefix(s: string, p: nat, m: nat)
    requires |s| == m + 3 && p <= m
    ensures InsertCommas(s, p) == InsertCommas(s[..m], p) + InsertCommas(s, m)
    decreases m - p
  {
    if p < m {
      InsertPrefix(s, p + 1, m);
      var head := InsertStep(s, m, p);
      var a, b, c := InsertCommas(s[..m], p + 1), InsertCommas(s, m), InsertCommas(s, p + 1);
      assert c == a + b;
      assert head + (a + b) == (head + a) + b;
    }
  }

  /** Before the last three digits, the comma positions of `s` are those of
      `s` without its last three digits. */
  lemma InsertStep(s: string, m: nat, p: nat) returns (head: string)
    requires |s| == m + 3 && p < m
    ensures InsertCommas(s, p) == head + InsertCommas(s, p + 1)
    ensures InsertCommas(s[..m], p) == head + InsertCommas(s[..m], p + 1)
  {
    assert CommaBefore(|s|, p) == CommaBefore(m, p) by {
      assert |s| - p == (m - p) + 3;
    }
    head := (if CommaBefore(m, p) then "," else "") + [s[p]];
    assert s[..m][p] == s[p];
  }

  lemma InsertLastGroup(s: string, m: nat)
    requires |s| == m + 3 && m > 0
    ensures InsertCommas(s, m) == "," + s[m..]
  {
    assert InsertCommas(s, m + 2) == [s[m + 2]];
    assert InsertCommas(s, m + 1) == [s[m + 1], s[m + 2]];
    assert s[m..] == [s[m], s[m + 1], s[m + 2]];
  }

  /** The regular-expression replacement is the same as joining the groups
      of three with commas. */
  lemma {:induction false} RegexIsGrouping(s: string)
    ensures InsertCommas(s, 0) == Strings.Join(Chunks(s), ",")
    decreases |s|
  {
    if |s| <= 3 {
      InsertNoCommas(s, 0);
    } else {
      var m := |s| - 3;
      var front, last := s[..m], s[m..];
      InsertPrefix(s, 0, m);
      InsertLastGroup(s, m);
      RegexIsGrouping(front);
      assert Chunks(s) == Chunks(front) + [last];
      Strings.JoinSnoc(Chunks(front), last, ",");
      assert InsertCommas(s, 0) == Strings.Join(Chunks(front), ",") + ("," + last);
    }
  }

  /** `numberWithCommas(x)` for a non-negative integer: its decimal string
      with a comma before every group of three digits counted from the end.
      Splitting the result at the commas gives those groups. */
  function NumberWithCommas(n: nat): (r: string)
    ensures Strings.Split(r, ',') == Chunks(Strings.DecimalString(n))
  {
    var s := Strings.DecimalString(n);
    RegexIsGrouping(s);
    Strings.SplitJoin(Chunks(s), ',');
    InsertCommas(s, 0)
  }

  /** Removing the commas gives the decimal string back; the first group has
      one to three digits and every later group exactly three; numbers below
      1000 are left as they are, and exactly the others get a comma. */
  lemma NumberWithCommasGroups(n: nat)
    ensures var groups := Strings.Split(NumberWithCommas(n), ',');
      && Strings.Join(groups, "") == Strings.DecimalString(n)
      && 1 <= |groups[0]| <= 3
      && (forall k :: 1 <= k < |groups| ==> |groups[k]| == 3)
      && (|groups| > 1 <==> n >= 1000)
    ensures n < 1000 ==> NumberWithCommas(n) == Strings.DecimalString(n)
  {
    var s := Strings.DecimalString(n);
    ChunksConcat(s);
    ChunkSizes(s);
    Strings.DecimalStringLength(n);
    if n < 1000 {
      RegexIsGrouping(s);
    }
  }

  /* ---------------------------------------------------------------------
     clamp
     --------------------------------------------------------------------- */

  /** `Math.min(Math.max(num, min), max)` */
  function Clamp(num: real, lo: real, hi: real): (r: real)
    ensures lo <= hi ==> lo <= r <= hi
    ensures lo <= num <= hi ==> r == num
    ensures r == num || r == lo || r == hi
    ensures hi < lo ==> r == hi
  {
    Min(Max(num, lo), hi)
  }

  /** Clamping a clamped value changes nothing. */
  lemma ClampIdempotent(num: real, lo: real, hi: real)
    ensures Clamp(Clamp(num, lo, hi), lo, hi) == Clamp(num, lo, hi)
  {
  }

  /** Clamping keeps the order of its arguments. */
  lemma ClampMonotone(x: real, y: real, lo: real, hi: real)
    requires x <= y
    ensures Clamp(x, lo, hi) <= Clamp(y, lo, hi)
  {
  }

  /* ---------------------------------------------------------------------
     the cars and their ids
     --------------------------------------------------------------------- */

  /** One row of the cars table: the name, the type, the six numbers the
      radar chart shows (already converted to the chart's units) and the
      `id` the page gives it. */
  datatype Car = Car(name: string, kind: string, readings: seq<real>, id: nat)

  /** The loop after loading: row `i` gets `id` `i`; nothing else changes. */
  method AssignIds(rows: seq<Car>) returns (out: seq<Car>)
    ensures |out| == |rows|
    ensures forall i :: 0 <= i < |rows| ==> out[i] == rows[i].(id := i)
    ensures forall i, j :: 0 <= i < j < |out| ==> out[i].id != out[j].id
  {
    out := rows;
    var i := 0;
    while i < |rows|
      invariant 0 <= i <= |rows| && |out| == |rows|
      invariant forall k :: 0 <= k < i ==> out[k] == rows[k].(id := k)
      invariant forall k :: i <= k < |rows| ==> out[k] == rows[k]
    {
      out := out[i := out[i].(id := i)];
      i := i + 1;
    }
  }

  /* ---------------------------------------------------------------------
     the selection
     --------------------------------------------------------------------- */

  /** The axis names of both radar charts, in the order the page lists them. */
  const RadarAxes: seq<string> :=
    ["Retail Price", "Engine Size (l)", "Horsepower", "Weight (kg)", "Length (cm)", "City l/100km"]

  /** The object the page stores for a selected car. */
  datatype Record = Record(entity: Entity, kind: string, id: nat)

  /** A record as the page builds it: six axes named as in `RadarAxes`, axis
      `i` carrying the page-wide domain `domains[i]`. */
  ghost predicate PageRecord(rec: Record, domains: seq<Domain>)
  {
    && |rec.entity.axes| == |RadarAxes| == |domains|
    && (forall i :: 0 <= i < |RadarAxes| ==> rec.entity.axes[i].axis == RadarAxes[i])
    && (forall i :: 0 <= i < |RadarAxes| ==> rec.entity.axes[i].domain == Some(domains[i]))
  }

  /** The record `mapRadar.set` stores on a click. Every domain is computed
      over the whole table, so it is the same for every car. */
  function MakeRecord(car: Car, domains: seq<Domain>): (rec: Record)
    requires |car.readings| == |RadarAxes| && |domains| == |RadarAxes|
    ensures PageRecord(rec, domains)
    ensures rec.id == car.id && rec.entity.name == car.name && rec.kind == car.kind
    ensures forall i :: 0 <= i < |RadarAxes| ==> rec.entity.axes[i].value == car.readings[i]
    ensures RadarChart.AxisNames(rec.entity.axes) == RadarAxes
  {
    var axes := seq(|RadarAxes|, i requires 0 <= i < |RadarAxes| => AxisSpec(RadarAxes[i], car.readings[i], Some(domains[i])));
    Record(Entity(car.name, axes), car.kind, car.id)
  }

  /** `mapRadar`: car id to record, in the order the cars were clicked. */
  type Selection = OrderedMap.OMap<nat, Record>

  /** What the page keeps true of `mapRadar`: one entry per id, each record
      stored under its own id, built the page's way. */
  ghost predicate WellFormed(m: Selection, domains: seq<Domain>)
  {
    && OrderedMap.KeysDistinct(m)
    && (forall j :: 0 <= j < |m| ==> m[j].1.id == m[j].0)
    && (forall j :: 0 <= j < |m| ==> PageRecord(m[j].1, domains))
  }

  /** A click on the dot of `car`: an unselected car is appended to the
      selection, a selected one is removed. */
  function Click(m: Selection, car: Car, domains: seq<Domain>): (r: Selection)
    requires |car.readings| == |RadarAxes| && |domains| == |RadarAxes|
    ensures OrderedMap.Has(r, car.id) <==> !OrderedMap.Has(m, car.id)
    ensures forall id :: id != car.id ==> (OrderedMap.Has(r, id) <==> OrderedMap.Has(m, id))
    ensures !OrderedMap.Has(m, car.id) ==> r == m + [(car.id, MakeRecord(car, domains))]
    ensures OrderedMap.Has(m, car.id) && OrderedMap.KeysDistinct(m) ==>
              var i := OrderedMap.Find(m, car.id).value; r == m[..i] + m[i + 1..]
    ensures WellFormed(m, domains) ==> WellFormed(r, domains)
  {
    if OrderedMap.Has(m, car.id) then
      DeleteKeys(m, car.id);
      DeleteFromSelection(m, car.id, domains);
      OrderedMap.Delete(m, car.id)
    else
      var r := OrderedMap.Set(m, car.id, MakeRecord(car, domains));
      assert r == m + [(car.id, MakeRecord(car, domains))];
      r
  }

  /** With distinct keys, deleting a selected id cuts out its entry, and a
      well-formed selection stays well-formed. */
  lemma DeleteFromSelection(m: Selection, k: nat, domains: seq<Domain>)
    requires OrderedMap.Has(m, k)
    ensures OrderedMap.KeysDistinct(m) ==>
              var i := OrderedMap.Find(m, k).value; OrderedMap.Delete(m, k) == m[..i] + m[i + 1..]
    ensures WellFormed(m, domains) ==> WellFormed(OrderedMap.Delete(m, k), domains)
  {
    if OrderedMap.KeysDistinct(m) {
      OrderedMap.DeleteCutsOut(m, k);
      if WellFormed(m, domains) {
        CutOutWellFormed(m, OrderedMap.Find(m, k).value, domains);
      }
    }
  }

  /** Cutting one entry out of a well-formed selection leaves it well-formed. */
  lemma CutOutWellFormed(m: Selection, i: nat, domains: seq<Domain>)
    requires WellFormed(m, domains) && i < |m|
    ensures WellFormed(m[..i] + m[i + 1..], domains)
  {
    var r := m[..i] + m[i + 1..];
    assert forall j :: 0 <= j < |r| ==> r[j] == (if j < i then m[j] else m[j + 1]);
  }

  /** Without distinct keys the ids other than the deleted one stay put as well. */
  lemma {:induction false} DeleteKeys(m: Selection, k: nat)
    ensures forall id :: id != k ==> (OrderedMap.Has(OrderedMap.Delete(m, k), id) <==> OrderedMap.Has(m, id))
    ensures !OrderedMap.Has(OrderedMap.Delete(m, k), k)
    decreases |m|
  {
    if |m| > 0 {
      DeleteKeys(m[1..], k);
      forall id | id != k
        ensures OrderedMap.Has(OrderedMap.Delete(m, k), id) <==> OrderedMap.Has(m, id)
      {
        HasCons(m, id);
        if m[0].0 != k {
          HasCons([m[0]] + OrderedMap.Delete(m[1..], k), id);
          assert ([m[0]] + OrderedMap.Delete(m[1..], k))[1..] == OrderedMap.Delete(m[1..], k);
        }
      }
    }
  }

  lemma HasCons(m: Selection, id: nat)
    requires |m| > 0
    ensures OrderedMap.Has(m, id) <==> m[0].0 == id || OrderedMap.Has(m[1..], id)
  {
  }

  /** Clicking a car that is not selected and clicking it again gives back
      the selection it started from. */
  lemma ClickTwiceRestores(m: Selection, car: Car, domains: seq<Domain>)
    requires |car.readings| == |RadarAxes| && |domains| == |RadarAxes|
    requires !OrderedMap.Has(m, car.id)
    ensures Click(Click(m, car, domains), car, domains) == m
  {
    var rec := MakeRecord(car, domains);
    OrderedMap.FindAt(m + [(car.id, rec)], car.id, |m|);
    OrderedMap.DeleteAppended(m, car.id, rec);
  }

  /** The "x" in front of legend entry `i`: deletes the id stored in the
      `i`-th record. */
  function LegendRemove(m: Selection, i: nat): (r: Selection)
    requires i < |m|
    ensures forall j :: 0 <= j < |r| ==> r[j].0 != OrderedMap.Values(m)[i].id
  {
    OrderedMap.Delete(m, OrderedMap.Values(m)[i].id)
  }

  /** On a well-formed selection the "x" of entry `i` removes exactly entry
      `i` and keeps the others in their order. */
  lemma LegendRemovesEntry(m: Selection, domains: seq<Domain>, i: nat)
    requires WellFormed(m, domains) && i < |m|
    ensures LegendRemove(m, i) == m[..i] + m[i + 1..]
    ensures WellFormed(LegendRemove(m, i), domains)
  {
    var k := m[i].0;
    assert OrderedMap.Values(m)[i].id == k;
    OrderedMap.FindAt(m, k, i);
    OrderedMap.DeleteCutsOut(m, k);
    CutOutWellFormed(m, i, domains);
  }

  /* ---------------------------------------------------------------------
     drawRadar
     --------------------------------------------------------------------- */

  /** `Array.from(mapRadar.values())`, as chart entities. */
  function Entities(m: Selection): (data: seq<Entity>)
    ensures |data| == |m|
    ensures forall k :: 0 <= k < |m| ==> data[k] == m[k].1.entity
  {
    seq(|m|, k requires 0 <= k < |m| => m[k].1.entity)
  }

  /** One line of the legend under the chart. */
  datatype LegendEntry = LegendEntry(colour: nat, circleY: int, crossY: int, nameY: int, name: string)

  datatype LegendLayout = LegendLayout(height: int, entries: seq<LegendEntry>)

  const MarkerRadius: int := 6

  /** The background is `12 + 20 * n` high; entry `i` has its circle at
      `16 + 20 * i`, its "x" and its name on the baseline `20 + 20 * i`, and
      colour `i`. */
  function Legend(names: seq<string>): (l: LegendLayout)
    ensures |l.entries| == |names|
    ensures forall i :: 0 <= i < |names| ==> l.entries[i].name == names[i] && l.entries[i].colour == i
    ensures forall i :: 0 <= i < |names| ==>
              l.entries[i].nameY == 20 + 20 * i && l.entries[i].crossY == l.entries[i].nameY
              && l.entries[i].circleY == 16 + 20 * i
    ensures l.height == 12 + 20 * |names|
  {
    LegendLayout(12 + |names| * 20,
      seq(|names|, i requires 0 <= i < |names| => LegendEntry(i, 16 + i * 20, 20 + i * 20, 20 + i * 20, names[i])))
  }

  /** Every marker circle and every baseline lies inside the background, and
      the markers of neighbouring entries do not touch. */
  lemma LegendFits(names: seq<string>)
    ensures var l := Legend(names);
      && (forall i :: 0 <= i < |names| ==>
            0 <= l.entries[i].circleY - MarkerRadius && l.entries[i].circleY + MarkerRadius <= l.height)
      && (forall i :: 0 <= i < |names| ==> 0 < l.entries[i].nameY <= l.height && l.entries[i].crossY == l.entries[i].nameY)
      && (forall i :: 0 <= i < |names| - 1 ==>
            l.entries[i].circleY + MarkerRadius < l.entries[i + 1].circleY - MarkerRadius)
  {
  }

  datatype RadarView =
    | EmptyView(skeleton: RadarChart.Skeleton)
    | FullView(chart: Result<RadarChart.Chart, ChartError>, legend: LegendLayout)

  /** `drawRadar`: the empty chart over the page's axis names when nothing
      is selected, otherwise the full chart over the selected cars in the
      order they were clicked, with their legend. */
  function DrawRadar(m: Selection, cfg: RadarOptions.RenderConfig): (v: RadarView)
    ensures v.EmptyView? <==> |m| == 0
    ensures v.EmptyView? ==> v.skeleton == RadarChart.EmptyChart(RadarAxes, cfg)
    ensures v.FullView? ==> v.chart == RadarChart.Draw(Entities(m), cfg)
    ensures v.FullView? ==> |v.legend.entries| == |m| && v.legend.height == 12 + 20 * |m|
    ensures v.FullView? ==> forall i :: 0 <= i < |m| ==> v.legend.entries[i].name == m[i].1.entity.name
  {
    if |m| == 0 then EmptyView(RadarChart.EmptyChart(RadarAxes, cfg))
    else
      var data := Entities(m);
      FullView(RadarChart.Draw(data, cfg), Legend(seq(|data|, i requires 0 <= i < |data| => data[i].name)))
  }

  /** A selection of page records always draws: every axis has a domain.
      The full chart keeps the axes, radius and grid of the empty one, and
      legend entry `i` has the colour of blob `i`. */
  lemma PageChartDraws(m: Selection, domains: seq<Domain>, cfg: RadarOptions.RenderConfig)
    requires WellFormed(m, domains) && |m| > 0
    ensures DrawRadar(m, cfg).FullView? && DrawRadar(m, cfg).chart.Ok?
    ensures DrawRadar(m, cfg).chart.value.skeleton == RadarChart.EmptyChart(RadarAxes, cfg)
    ensures forall i :: 0 <= i < |m| ==>
              DrawRadar(m, cfg).legend.entries[i].colour == DrawRadar(m, cfg).chart.value.styles[i].area
  {
    var data := Entities(m);
    assert AllHaveDomains(data) by {
      forall k, i | 0 <= k < |data| && 0 <= i < |data[k].axes|
        ensures data[k].axes[i].domain.Some?
      {
        assert PageRecord(m[k].1, domains);
      }
    }
    RadarChart.UnionAlwaysDraws(data, cfg);
    assert PageRecord(m[0].1, domains);
    assert RadarChart.AxisNames(data[0].axes) == RadarAxes;
  }

  /** On the page every selected car carries the same domain on a given
      axis, so the union of the domains behaves as intended: it is that
      domain, with its lower end capped at 10e10 and its upper end raised to
      at least 0. */
  lemma PageUnionIsIntended(m: Selection, domains: seq<Domain>, i: nat)
    requires WellFormed(m, domains) && i < |domains|
    ensures AllHaveDomains(Entities(m))
    ensures AxisUnion(Entities(m), i) == IntendedAxisUnion(Entities(m), i)
    ensures |m| > 0 ==> AxisUnion(Entities(m), i) == Some(Domain(Min(Sentinel, domains[i].lo), Max(0.0, domains[i].hi)))
  {
    var data := Entities(m);
    assert forall k :: 0 <= k < |data| ==> PageRecord(m[k].1, domains);
    assert AllHaveDomains(data) by {
      forall k, j | 0 <= k < |data| && 0 <= j < |data[k].axes|
        ensures data[k].axes[j].domain.Some?
      {
        assert PageRecord(m[k].1, domains);
      }
    }
    forall k | 0 <= k < |data| && i < |data[k].axes|
      ensures DomainOf(data, k, i) == domains[i]
    {
      assert PageRecord(m[k].1, domains);
    }
    UnionIntendedWhenShared(data, i, domains[i]);
    if |m| > 0 {
      assert PageRecord(m[0].1, domains);
    }
  }
}
