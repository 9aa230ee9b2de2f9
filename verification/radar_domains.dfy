/** The axis-domain resolver of `RadarChart`: for every axis, the `[lo, hi]`
    input range its linear scale maps onto the chart radius.

    When every axis of every entity carries a `domain`, the supplied domains
    are merged axis by axis; otherwise every axis gets one common domain
    found by scanning all the values. The union is modelled twice: as the
    code is written (`UnionDomains`, where an accumulated lower bound of 0
    counts as "not yet set") and as intended (`IntendedUnionDomains`, the
    one the resolver uses); the two agree whenever no supplied lower bound
    is 0 and whenever every entity supplies the same domain. The fallback
    lower bound is modelled as written: a `max`, not a `min`. */
module RadarDomains {
  import opened Wrappers

  datatype Domain = Domain(lo: real, hi: real)

  /** One measurement of one entity: `{axis, value, domain?}`. */
  datatype AxisSpec = AxisSpec(axis: string, value: real, domain: Option<Domain>)

  /** One chart entity ("blob"): a name and its measurements, in axis order. */
  datatype Entity = Entity(name: string, axes: seq<AxisSpec>)

  datatype ChartError =
    | NoEntities        // `data[0].axes` on an empty array throws
    | MissingScale      // an entity has more axes than there are scales

  /** `10e10`, the start value of the running minimum. */
  const Sentinel: real := 100000000000.0

  function Min(a: real, b: real): real { if a <= b then a else b }

  function Max(a: real, b: real): real { if a >= b then a else b }

  function MaxNat(a: nat, b: nat): nat { if a >= b then a else b }

  /** The guard of the union branch: every axis of every entity has a `domain`. */
  predicate AllHaveDomains(data: seq<Entity>)
  {
    forall k, i :: 0 <= k < |data| && 0 <= i < |data[k].axes| ==> data[k].axes[i].domain.Some?
  }

  /** The supplied domain of axis `i` of entity `k`. */
  function DomainOf(data: seq<Entity>, k: nat, i: nat): Domain
    requires AllHaveDomains(data) && k < |data| && i < |data[k].axes|
  {
    data[k].axes[i].domain.value
  }

  /** One step of the union, for one axis of one entity: the running lower
      bound falls back to `10e10` when it is unset OR ZERO (JavaScript `||`),
      the running upper bound to 0 when unset. */
  function Absorb(acc: Option<Domain>, d: Domain): (r: Domain)
    ensures r.lo <= d.lo && r.hi >= d.hi
    ensures acc.None? ==> r.lo <= Sentinel && r.hi >= 0.0
    ensures acc.Some? ==> r.hi >= acc.value.hi
    ensures acc.Some? && acc.value.lo != 0.0 ==> r.lo <= acc.value.lo
    ensures acc.Some? && acc.value.lo == 0.0 && d.lo > 0.0 ==> r.lo > acc.value.lo
    ensures r.lo == d.lo || r.lo == Sentinel || (acc.Some? && r.lo == acc.value.lo)
    ensures r.hi == d.hi || r.hi == 0.0 || (acc.Some? && r.hi == acc.value.hi)
  {
    var lo := if acc.None? || acc.value.lo == 0.0 then Sentinel else acc.value.lo;
    var hi := if acc.None? then 0.0 else acc.value.hi;
    Domain(Min(lo, d.lo), Max(hi, d.hi))
  }

  /** The inner loop over one entity's axes: existing entries beyond the
      entity's axis count stay as they are, new ones are appended. */
  function AbsorbEntity(acc: seq<Domain>, axes: seq<AxisSpec>): (r: seq<Domain>)
    requires forall i :: 0 <= i < |axes| ==> axes[i].domain.Some?
    ensures |r| == MaxNat(|acc|, |axes|)
    ensures forall i :: 0 <= i < |axes| ==>
              r[i] == Absorb(if i < |acc| then Some(acc[i]) else None, axes[i].domain.value)
    ensures forall i :: |axes| <= i < |acc| ==> r[i] == acc[i]
  {
    seq(MaxNat(|acc|, |axes|), i requires 0 <= i < MaxNat(|acc|, |axes|) =>
      if i < |axes| then Absorb(if i < |acc| then Some(acc[i]) else None, axes[i].domain.value)
      else acc[i])
  }

  /** The largest axis count among the entities. */
  function MaxAxes(data: seq<Entity>): (n: nat)
    ensures forall k :: 0 <= k < |data| ==> |data[k].axes| <= n
    ensures |data| > 0 ==> exists k :: 0 <= k < |data| && |data[k].axes| == n
    ensures |data| == 0 ==> n == 0
  {
    if |data| == 0 then 0
    else
      var m := MaxAxes(data[..|data| - 1]);
      assert forall k :: 0 <= k < |data| - 1 ==> data[..|data| - 1][k] == data[k];
      MaxNat(m, |data[|data| - 1].axes|)
  }

  lemma PrefixHasDomains(data: seq<Entity>)
    requires AllHaveDomains(data) && |data| > 0
    ensures AllHaveDomains(data[..|data| - 1])
  {
    assert forall k :: 0 <= k < |data| - 1 ==> data[..|data| - 1][k] == data[k];
  }

  /** The union loop as written (radarChart.js lines 74-80): the outer loop
      over the entities in array order. */
  function UnionDomains(data: seq<Entity>): (r: seq<Domain>)
    requires AllHaveDomains(data)
    ensures |r| == MaxAxes(data)
  {
    if |data| == 0 then []
    else
      PrefixHasDomains(data);
      AbsorbEntity(UnionDomains(data[..|data| - 1]), data[|data| - 1].axes)
  }

  /** The same union seen one axis at a time: the running value of
      `domains[i]` after each entity, `None` while no entity has axis `i`.
      Its contract is what the union promises for that axis. */
  function AxisUnion(data: seq<Entity>, i: nat): (r: Option<Domain>)
    requires AllHaveDomains(data)
    ensures r.Some? <==> exists k :: 0 <= k < |data| && i < |data[k].axes|
    ensures r.Some? ==> r.value.hi >= 0.0
    ensures r.Some? ==> forall k :: 0 <= k < |data| && i < |data[k].axes| ==> r.value.hi >= DomainOf(data, k, i).hi
    ensures r.Some? ==> r.value.hi == 0.0 || exists k :: 0 <= k < |data| && i < |data[k].axes| && r.value.hi == DomainOf(data, k, i).hi
    ensures r.Some? ==> r.value.lo <= Sentinel
    ensures r.Some? ==> r.value.lo == Sentinel || exists k :: 0 <= k < |data| && i < |data[k].axes| && r.value.lo == DomainOf(data, k, i).lo
    ensures r.Some? && i < |data[|data| - 1].axes| ==> r.value.lo <= DomainOf(data, |data| - 1, i).lo
  {
    if |data| == 0 then None
    else
      PrefixHasDomains(data);
      var prefix := data[..|data| - 1];
      assert forall k :: 0 <= k < |data| - 1 ==> prefix[k] == data[k];
      var prev := AxisUnion(prefix, i);
      var e := data[|data| - 1];
      if i < |e.axes| then Some(Absorb(prev, e.axes[i].domain.value)) else prev
  }

  /** The nested loops compute, for every axis, exactly the per-axis running value. */
  lemma {:induction false} UnionByAxis(data: seq<Entity>, i: nat)
    requires AllHaveDomains(data)
    ensures i < |UnionDomains(data)| ==> AxisUnion(data, i) == Some(UnionDomains(data)[i])
    ensures i >= |UnionDomains(data)| ==> AxisUnion(data, i) == None
  {
    if |data| > 0 {
      PrefixHasDomains(data);
      UnionByAxis(data[..|data| - 1], i);
    }
  }

  /** Every value on every axis of every entity, in loop order. */
  function AllValues(data: seq<Entity>): seq<real>
  {
    if |data| == 0 then []
    else AllValues(data[..|data| - 1]) + seq(|data[|data| - 1].axes|, i requires 0 <= i < |data[|data| - 1].axes| => data[|data| - 1].axes[i].value)
  }

  lemma {:induction false} ValueListed(data: seq<Entity>, k: nat, i: nat)
    requires k < |data| && i < |data[k].axes|
    ensures data[k].axes[i].value in AllValues(data)
  {
    var last := |data| - 1;
    if k < last {
      ValueListed(data[..last], k, i);
    } else {
      var tail := seq(|data[last].axes|, j requires 0 <= j < |data[last].axes| => data[last].axes[j].value);
      assert tail[i] == data[k].axes[i].value;
      assert AllValues(data) == AllValues(data[..last]) + tail;
    }
  }

  /** `maxValue` after the scan (lines 86-98): starts at 0, raised by every larger value. */
  function ScanMax(vs: seq<real>): (m: real)
    ensures m >= 0.0
    ensures forall k :: 0 <= k < |vs| ==> vs[k] <= m
    ensures m == 0.0 || m in vs
  {
    if |vs| == 0 then 0.0
    else
      var prev := ScanMax(vs[..|vs| - 1]);
      assert forall k :: 0 <= k < |vs| - 1 ==> vs[..|vs| - 1][k] == vs[k];
      if vs[|vs| - 1] > prev then vs[|vs| - 1] else prev
  }

  /** `minValue` after the scan: starts at 0, lowered by every smaller value. */
  function ScanMin(vs: seq<real>): (m: real)
    ensures m <= 0.0
    ensures forall k :: 0 <= k < |vs| ==> m <= vs[k]
    ensures m == 0.0 || m in vs
  {
    if |vs| == 0 then 0.0
    else
      var prev := ScanMin(vs[..|vs| - 1]);
      assert forall k :: 0 <= k < |vs| - 1 ==> vs[..|vs| - 1][k] == vs[k];
      if vs[|vs| - 1] < prev then vs[|vs| - 1] else prev
  }

  /** The domain every axis gets in the fallback branch (lines 99-100): the
      upper bound is raised to `cfg.maxValue`, and the lower bound is ALSO
      passed through `max`, so `cfg.minValue` can only raise it. */
  function FallbackDomain(data: seq<Entity>, cfgMin: real, cfgMax: real): (d: Domain)
    ensures d.hi >= 0.0 && d.hi >= cfgMax
    ensures forall v :: v in AllValues(data) ==> v <= d.hi
    ensures d.hi == cfgMax || d.hi == 0.0 || d.hi in AllValues(data)
    ensures d.lo >= cfgMin && d.lo <= Max(cfgMin, 0.0)
    ensures forall v :: v in AllValues(data) ==> d.lo <= Max(cfgMin, v)
    ensures d.lo == cfgMin || d.lo == 0.0 || d.lo in AllValues(data)
    ensures 0.0 <= d.lo || exists v :: v in AllValues(data) && v <= d.lo
  {
    Domain(Max(cfgMin, ScanMin(AllValues(data))), Max(cfgMax, ScanMax(AllValues(data))))
  }

  /** Whether the union branch produces the domains: every axis has a
      `domain` and there is at least one axis. (`new Set(domains).size` is
      the number of entries, every entry being a distinct array.) */
  predicate UsesUnion(data: seq<Entity>)
  {
    AllHaveDomains(data) && MaxAxes(data) > 0
  }

  /** The resolved domains, one per scale (lines 72-106). */
  function ResolveDomains(data: seq<Entity>, cfgMin: real, cfgMax: real): (r: Result<seq<Domain>, ChartError>)
    ensures r.Err? <==> |data| == 0
    ensures r.Err? ==> r.error == NoEntities
    ensures UsesUnion(data) ==> r.Ok? && r.value == IntendedUnionDomains(data)
    ensures UsesUnion(data) <==> AllHaveDomains(data) && exists k :: 0 <= k < |data| && |data[k].axes| > 0
    ensures |data| > 0 && !UsesUnion(data) ==>
              r.Ok? && |r.value| == |data[0].axes|
              && forall i :: 0 <= i < |r.value| ==> r.value[i] == FallbackDomain(data, cfgMin, cfgMax)
  {
    if UsesUnion(data) then Ok(IntendedUnionDomains(data))
    else if |data| == 0 then Err(NoEntities)
    else
      var d := FallbackDomain(data, cfgMin, cfgMax);
      Ok(seq(|data[0].axes|, _ => d))
  }

  /** The union branch is all-or-nothing: one entity without a `domain` on one
      axis sends EVERY axis to the common fallback domain. */
  lemma FallbackIsShared(data: seq<Entity>, cfgMin: real, cfgMax: real)
    requires |data| > 0 && !AllHaveDomains(data)
    ensures var r := ResolveDomains(data, cfgMin, cfgMax);
            r.Ok? && forall i, j :: 0 <= i < |r.value| && 0 <= j < |r.value| ==> r.value[i] == r.value[j]
  {
  }

  /** In the union branch, axis `i` gets the smallest of `10e10` and every
      supplied lower bound, and the largest of 0 and every supplied upper
      bound. */
  lemma UnionAxisBounds(data: seq<Entity>, cfgMin: real, cfgMax: real, i: nat)
    requires UsesUnion(data) && i < MaxAxes(data)
    ensures var d := ResolveDomains(data, cfgMin, cfgMax).value[i];
            && d.lo <= Sentinel && d.hi >= 0.0
            && (forall k :: 0 <= k < |data| && i < |data[k].axes| ==>
                  d.lo <= DomainOf(data, k, i).lo && DomainOf(data, k, i).hi <= d.hi)
            && (d.lo == Sentinel || exists k :: 0 <= k < |data| && i < |data[k].axes| && d.lo == DomainOf(data, k, i).lo)
            && (d.hi == 0.0 || exists k :: 0 <= k < |data| && i < |data[k].axes| && d.hi == DomainOf(data, k, i).hi)
  {
  }

  // ---------------------------------------------------------------------
  // The zero-reset of the running lower bound, and the intended union.
  // ---------------------------------------------------------------------

  /** The union step with the running lower bound reset only when unset
      (what `domains[i][0] ?? 10e10` would do). */
  function AbsorbIntended(acc: Option<Domain>, d: Domain): Domain
  {
    var lo := if acc.None? then Sentinel else acc.value.lo;
    var hi := if acc.None? then 0.0 else acc.value.hi;
    Domain(Min(lo, d.lo), Max(hi, d.hi))
  }

  /** The intended union of axis `i`: its lower bound lies at or below every
      supplied lower bound (and `10e10`), its upper bound at or above every
      supplied upper bound (and 0). */
  function IntendedAxisUnion(data: seq<Entity>, i: nat): (r: Option<Domain>)
    requires AllHaveDomains(data)
    ensures r.Some? <==> exists k :: 0 <= k < |data| && i < |data[k].axes|
    ensures r.Some? ==> r.value.lo <= Sentinel && r.value.hi >= 0.0
    ensures r.Some? ==> forall k :: 0 <= k < |data| && i < |data[k].axes| ==>
              r.value.lo <= DomainOf(data, k, i).lo && DomainOf(data, k, i).hi <= r.value.hi
    ensures r.Some? ==> r.value.lo == Sentinel || exists k :: 0 <= k < |data| && i < |data[k].axes| && r.value.lo == DomainOf(data, k, i).lo
    ensures r.Some? ==> r.value.hi == 0.0 || exists k :: 0 <= k < |data| && i < |data[k].axes| && r.value.hi == DomainOf(data, k, i).hi
  {
    if |data| == 0 then None
    else
      PrefixHasDomains(data);
      var prefix := data[..|data| - 1];
      assert forall k :: 0 <= k < |data| - 1 ==> prefix[k] == data[k];
      var prev := IntendedAxisUnion(prefix, i);
      var e := data[|data| - 1];
      if i < |e.axes| then Some(AbsorbIntended(prev, e.axes[i].domain.value)) else prev
  }

  /** The intended union for every axis, one scale per axis of the
      widest entity: what the union branch resolves to in this model. */
  function IntendedUnionDomains(data: seq<Entity>): (r: seq<Domain>)
    requires AllHaveDomains(data)
    ensures |r| == MaxAxes(data)
    ensures forall i :: 0 <= i < |r| ==> IntendedAxisUnion(data, i) == Some(r[i])
  {
    seq(MaxAxes(data), i requires 0 <= i < MaxAxes(data) => IntendedAxisUnion(data, i).value)
  }

  /** `wide` has the shape of `data`, with every supplied domain at least as wide. */
  ghost predicate Widens(wide: seq<Entity>, data: seq<Entity>)
    requires AllHaveDomains(wide) && AllHaveDomains(data)
  {
    && |wide| == |data|
    && (forall k :: 0 <= k < |data| ==> |wide[k].axes| == |data[k].axes|)
    && (forall k, i :: 0 <= k < |data| && 0 <= i < |data[k].axes| ==>
          DomainOf(wide, k, i).lo <= DomainOf(data, k, i).lo
          && DomainOf(data, k, i).hi <= DomainOf(wide, k, i).hi)
  }

  /** `outer` is at least as wide as `inner`, and present exactly when it is. */
  ghost predicate Covers(outer: Option<Domain>, inner: Option<Domain>)
  {
    (outer.Some? <==> inner.Some?)
    && (inner.Some? ==> outer.value.lo <= inner.value.lo && inner.value.hi <= outer.value.hi)
  }

  lemma AbsorbIntendedMonotone(pw: Option<Domain>, p: Option<Domain>, dw: Domain, d: Domain)
    requires Covers(pw, p) && dw.lo <= d.lo && d.hi <= dw.hi
    ensures Covers(Some(AbsorbIntended(pw, dw)), Some(AbsorbIntended(p, d)))
  {
  }

  lemma WidensPrefix(wide: seq<Entity>, data: seq<Entity>)
    requires AllHaveDomains(wide) && AllHaveDomains(data) && Widens(wide, data) && |data| > 0
    ensures AllHaveDomains(wide[..|data| - 1]) && AllHaveDomains(data[..|data| - 1])
    ensures Widens(wide[..|data| - 1], data[..|data| - 1])
  {
    var n := |data| - 1;
    PrefixHasDomains(data);
    PrefixHasDomains(wide);
    var w', d' := wide[..n], data[..n];
    assert forall k :: 0 <= k < n ==> d'[k] == data[k] && w'[k] == wide[k];
    forall k, j | 0 <= k < n && 0 <= j < |d'[k].axes|
      ensures DomainOf(w', k, j).lo <= DomainOf(d', k, j).lo
      ensures DomainOf(d', k, j).hi <= DomainOf(w', k, j).hi
    {
      assert DomainOf(w', k, j) == DomainOf(wide, k, j);
      assert DomainOf(d', k, j) == DomainOf(data, k, j);
    }
  }

  /** The intended union is monotonic: widening supplied domains can only
      widen the resolved domain. */
  lemma {:induction false} IntendedUnionMonotone(wide: seq<Entity>, data: seq<Entity>, i: nat)
    requires AllHaveDomains(wide) && AllHaveDomains(data) && Widens(wide, data)
    ensures Covers(IntendedAxisUnion(wide, i), IntendedAxisUnion(data, i))
  {
    if |data| > 0 {
      var n := |data| - 1;
      WidensPrefix(wide, data);
      IntendedUnionMonotone(wide[..n], data[..n], i);
      var pw, p := IntendedAxisUnion(wide[..n], i), IntendedAxisUnion(data[..n], i);
      if i < |data[n].axes| {
        var dw, d := DomainOf(wide, n, i), DomainOf(data, n, i);
        assert IntendedAxisUnion(wide, i) == Some(AbsorbIntended(pw, dw));
        assert IntendedAxisUnion(data, i) == Some(AbsorbIntended(p, d));
        AbsorbIntendedMonotone(pw, p, dw, d);
      } else {
        assert IntendedAxisUnion(wide, i) == pw;
        assert IntendedAxisUnion(data, i) == p;
      }
    }
  }

  /** When no supplied lower bound on axis `i` is 0, the zero-reset never
      fires and the code's union is the intended one. */
  lemma {:induction false} UnionIntendedWithoutZero(data: seq<Entity>, i: nat)
    requires AllHaveDomains(data)
    requires forall k :: 0 <= k < |data| && i < |data[k].axes| ==> DomainOf(data, k, i).lo != 0.0
    ensures AxisUnion(data, i) == IntendedAxisUnion(data, i)
  {
    if |data| > 0 {
      var n := |data| - 1;
      PrefixHasDomains(data);
      assert forall k :: 0 <= k < n ==> data[..n][k] == data[k];
      UnionIntendedWithoutZero(data[..n], i);
      var prev := AxisUnion(data[..n], i);
      if prev.Some? {
        assert prev.value.lo != 0.0;
      }
    }
  }

  /** When every entity carries the same domain for axis `i` (as on the
      scatter page, where each domain is computed from the whole data set),
      the code's union is the intended one, even with a 0 lower bound. */
  lemma {:induction false} UnionIntendedWhenShared(data: seq<Entity>, i: nat, d: Domain)
    requires AllHaveDomains(data)
    requires forall k :: 0 <= k < |data| && i < |data[k].axes| ==> DomainOf(data, k, i) == d
    ensures AxisUnion(data, i) == IntendedAxisUnion(data, i)
    ensures AxisUnion(data, i).Some? ==> AxisUnion(data, i).value == Domain(Min(Sentinel, d.lo), Max(0.0, d.hi))
  {
    if |data| > 0 {
      var n := |data| - 1;
      PrefixHasDomains(data);
      assert forall k :: 0 <= k < n ==> data[..n][k] == data[k];
      UnionIntendedWhenShared(data[..n], i, d);
    }
  }

  /** The code's union is NOT monotonic. Entities with domains [3,10] and
      [5,10] resolve to [3,10]; widening the first to [0,10] resolves to
      [5,10] (the accumulated 0 is reset to `10e10`), a lower bound above the
      supplied 0. The intended union resolves the widened input to [0,10]. */
  lemma ZeroLowerBoundIsReset()
    ensures var narrow := [Entity("a", [AxisSpec("x", 4.0, Some(Domain(3.0, 10.0)))]),
                           Entity("b", [AxisSpec("x", 6.0, Some(Domain(5.0, 10.0)))])];
            var wide := [Entity("a", [AxisSpec("x", 4.0, Some(Domain(0.0, 10.0)))]),
                         Entity("b", [AxisSpec("x", 6.0, Some(Domain(5.0, 10.0)))])];
            && UnionDomains(narrow) == [Domain(3.0, 10.0)]
            && UnionDomains(wide) == [Domain(5.0, 10.0)]
            && IntendedAxisUnion(wide, 0) == Some(Domain(0.0, 10.0))
  {
    var wide := [Entity("a", [AxisSpec("x", 4.0, Some(Domain(0.0, 10.0)))]),
                 Entity("b", [AxisSpec("x", 6.0, Some(Domain(5.0, 10.0)))])];
    assert wide[..1] == [wide[0]];
    assert UnionDomains(wide[..1]) == [Domain(0.0, 10.0)];
    var narrow := [Entity("a", [AxisSpec("x", 4.0, Some(Domain(3.0, 10.0)))]),
                   Entity("b", [AxisSpec("x", 6.0, Some(Domain(5.0, 10.0)))])];
    assert narrow[..1] == [narrow[0]];
    assert UnionDomains(narrow[..1]) == [Domain(3.0, 10.0)];
    assert IntendedAxisUnion(wide[..1], 0) == Some(Domain(0.0, 10.0));
  }
}
