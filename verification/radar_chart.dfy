/** The geometry and styling `RadarChart` and `RadarChartEmpty` compute
    before handing numbers to SVG: the outer radius, one linear scale per
    axis, the radii of the grid circles, the format specifier of the
    tooltip, the colour index of every blob and the fill opacity of the
    blobs under the mouse. Trigonometry (vertex and label positions) is not
    part of this model; a vertex is described by its distance from the
    centre. */
module RadarChart {
  import opened Wrappers
  import Strings
  import opened RadarDomains
  import RadarOptions

  /** `Math.min(cfg.w/2, cfg.h/2)`: the radius of the outermost circle. */
  function Radius(w: real, h: real): (r: real)
    ensures r <= w / 2.0 && r <= h / 2.0
    ensures r == w / 2.0 || r == h / 2.0
  {
    Min(w / 2.0, h / 2.0)
  }

  /** `d3.scaleLinear().range([0, radius]).domain([lo, hi])` applied to `x`.
      d3 (versions 4 and 5) normalises `x` to `(x - lo) / (hi - lo)` and, for
      a domain whose two ends coincide, to the constant 0, which is the start
      of the range: the centre. */
  function Scale(d: Domain, radius: real, x: real): (r: real)
    ensures d.lo == d.hi ==> r == 0.0
    ensures d.lo != d.hi && x == d.lo ==> r == 0.0
    ensures d.lo != d.hi && x == d.hi ==> r == radius
  {
    if d.lo == d.hi then 0.0
    else
      MulDivCancel(0.0, d.hi - d.lo);
      MulDivCancel(1.0, d.hi - d.lo);
      (x - d.lo) / (d.hi - d.lo) * radius
  }

  /** `scale.invert(y)`: the value a distance from the centre stands for. */
  function Invert(d: Domain, radius: real, y: real): (r: real)
    requires radius != 0.0
    ensures d.lo != d.hi ==> Scale(d, radius, r) == y
  {
    var span := d.hi - d.lo;
    var t := y / radius;
    MulDivCancel(t, span);
    DivMulCancel(y, radius);
    d.lo + t * span
  }

  /** The ends of a domain go to the centre and to the outer circle. */
  lemma ScaleEnds(d: Domain, radius: real)
    requires d.lo != d.hi
    ensures Scale(d, radius, d.lo) == 0.0
    ensures Scale(d, radius, d.hi) == radius
  {
    var span := d.hi - d.lo;
    assert (d.lo - d.lo) / span == 0.0;
    assert (d.hi - d.lo) / span == 1.0;
  }

  /** A domain whose ends coincide puts every value at the centre. */
  lemma ScaleDegenerate(d: Domain, radius: real, x: real)
    requires d.lo == d.hi
    ensures Scale(d, radius, x) == 0.0
  {
  }

  /** On an increasing domain and a positive radius the scale is strictly increasing. */
  lemma ScaleIncreasing(d: Domain, radius: real, x: real, y: real)
    requires d.lo < d.hi && radius > 0.0 && x < y
    ensures Scale(d, radius, x) < Scale(d, radius, y)
  {
    var span := d.hi - d.lo;
    assert (y - d.lo) / span - (x - d.lo) / span == (y - x) / span;
    var q := (y - x) / span;
    assert q > 0.0;
    assert q * radius > 0.0;
    assert Scale(d, radius, y) - Scale(d, radius, x) == q * radius;
  }

  /** A value inside an increasing domain lands between the centre and the outer circle. */
  lemma ScaleInside(d: Domain, radius: real, x: real)
    requires d.lo < d.hi && radius >= 0.0 && d.lo <= x <= d.hi
    ensures 0.0 <= Scale(d, radius, x) <= radius
  {
    var t := (x - d.lo) / (d.hi - d.lo);
    UnitFraction(x - d.lo, d.hi - d.lo);
    assert Scale(d, radius, x) == t * radius;
    assert t * radius <= 1.0 * radius;
  }

  lemma UnitFraction(a: real, b: real)
    requires 0.0 <= a <= b && b > 0.0
    ensures 0.0 <= a / b <= 1.0
  {
    var q := a / b;
    assert q * b == a;
  }

  /** `invert` undoes the scale on a domain of non-zero width. */
  lemma InvertScale(d: Domain, radius: real, x: real)
    requires d.lo != d.hi && radius != 0.0
    ensures Invert(d, radius, Scale(d, radius, x)) == x
  {
    var span := d.hi - d.lo;
    var t := (x - d.lo) / span;
    assert Scale(d, radius, x) == t * radius;
    MulDivCancel(t, radius);
    assert Invert(d, radius, t * radius) == d.lo + t * span;
    DivMulCancel(x - d.lo, span);
  }

  lemma MulDivCancel(t: real, a: real)
    ensures a != 0.0 ==> t * a / a == t
  {
  }

  lemma DivMulCancel(t: real, a: real)
    requires a != 0.0
    ensures t / a * a == t
  {
  }

  /** `d3.range(a, b)`: the integers from `a` up to, not including, `b`. */
  function Range(a: int, b: int): (r: seq<int>)
    ensures |r| == if a < b then b - a else 0
    ensures forall k :: 0 <= k < |r| ==> r[k] == a + k
    decreases b - a
  {
    if a >= b then [] else [a] + Range(a + 1, b)
  }

  /** `array.reverse()` */
  function Reverse<T>(s: seq<T>): (r: seq<T>)
    ensures |r| == |s|
    ensures forall k :: 0 <= k < |s| ==> r[k] == s[|s| - 1 - k]
  {
    if |s| == 0 then [] else Reverse(s[1..]) + [s[0]]
  }

  /** The radii of the grid circles: `radius / levels * d` for every `d` of
      `d3.range(1, levels + 1).reverse()`, outermost first. There is one
      circle per level, and circle `k` (from the outside) has radius
      `radius / levels * (levels - k)`. */
  function LevelRadii(radius: real, levels: int): (r: seq<real>)
    ensures |r| == if levels > 0 then levels else 0
    ensures forall k :: 0 <= k < |r| ==> r[k] == radius / levels as real * (levels - k) as real
  {
    var ds := Reverse(Range(1, levels + 1));
    seq(|ds|, k requires 0 <= k < |ds| => radius / levels as real * ds[k] as real)
  }

  /** The outermost circle has the chart's radius and the innermost one a
      `levels`-th of it. */
  lemma LevelRadiiEnds(radius: real, levels: int)
    requires levels > 0
    ensures LevelRadii(radius, levels)[0] == radius
    ensures LevelRadii(radius, levels)[levels - 1] == radius / levels as real
  {
    var l := levels as real;
    assert LevelRadii(radius, levels)[0] == radius / l * l;
    assert LevelRadii(radius, levels)[levels - 1] == radius / l * 1.0;
  }

  /** Neighbouring circles are a `levels`-th of the radius apart, so for a
      positive radius the radii shrink strictly inwards. */
  lemma LevelRadiiSpacing(radius: real, levels: int, k: nat)
    requires k + 1 < levels
    ensures LevelRadii(radius, levels)[k] - LevelRadii(radius, levels)[k + 1] == radius / levels as real
    ensures radius > 0.0 ==> LevelRadii(radius, levels)[k] > LevelRadii(radius, levels)[k + 1]
  {
    var r := LevelRadii(radius, levels);
    var l := levels as real;
    var q := radius / l;
    assert r[k] == q * (levels - k) as real && r[k + 1] == q * (levels - k - 1) as real;
    assert q * (levels - k) as real - q * (levels - k - 1) as real == q;
    if radius > 0.0 {
      assert radius / l > 0.0;
    }
  }

  /** `x % 1` in JavaScript: the remainder of truncating division, which
      carries the sign of `x`. */
  function JsRemOne(x: real): (r: real)
    ensures -1.0 < r < 1.0
    ensures x >= 0.0 ==> r >= 0.0
    ensures x < 0.0 ==> r <= 0.0
  {
    if x >= 0.0 then x - x.Floor as real else x + (-x).Floor as real
  }

  predicate IsWhole(x: real)
  {
    x == x.Floor as real
  }

  /** `d % 1 == 0` holds exactly for the whole numbers, negative ones included. */
  lemma RemOneZeroIffWhole(x: real)
    ensures JsRemOne(x) == 0.0 <==> IsWhole(x)
  {
    if x < 0.0 && JsRemOne(x) == 0.0 {
      assert x == -((-x).Floor as real);
      assert x.Floor == -((-x).Floor);
    }
    if x < 0.0 && IsWhole(x) {
      assert -x == (-(x.Floor)) as real;
      assert (-x).Floor == -(x.Floor);
    }
  }

  /** `cfg.format.slice(-1)`: the last character, or nothing for an empty format. */
  function LastChar(s: string): (r: string)
    ensures |s| == 0 ==> r == ""
    ensures |s| > 0 ==> r == [s[|s| - 1]]
  {
    if |s| == 0 then "" else s[|s| - 1..]
  }

  /** The specifier `FormatConditional` hands to `d3.format` for `d`: whole
      numbers get `".0"` followed by the type letter of `format`, so they
      print without decimals; other numbers get `format` itself. */
  function TooltipSpecifier(format: string, d: real): (spec: string)
    ensures IsWhole(d) ==> spec == ".0" + LastChar(format)
    ensures !IsWhole(d) ==> spec == format
  {
    RemOneZeroIffWhole(d);
    if JsRemOne(d) == 0.0 then ".0" + LastChar(format) else format
  }

  /** The colour indices of one blob: its area fill, its outline and each of
      its vertex dots. */
  datatype BlobStyle = BlobStyle(area: nat, stroke: nat, dots: seq<nat>)

  /** The `i` attribute of the blob's group: the index written as a string. */
  function GroupAttribute(k: nat): (s: string)
    ensures Strings.AllDigits(s)
  {
    Strings.DecimalString(k)
  }

  /** The colour of a dot: `parseInt` of its parent's `i` attribute. */
  function DotColour(attribute: string): nat
    requires Strings.AllDigits(attribute)
  {
    Strings.ParseDecimal(attribute)
  }

  lemma DotColourOfGroup(k: nat)
    ensures DotColour(GroupAttribute(k)) == k
  {
    Strings.ParseDecimalString(k);
  }

  /** Every blob `k` is painted with colour `k`: its area, its outline, and,
      after the round trip through the `i` attribute, every vertex dot. */
  function Styles(data: seq<Entity>): (r: seq<BlobStyle>)
    ensures |r| == |data|
    ensures forall k :: 0 <= k < |r| ==> r[k].area == k && r[k].stroke == k
    ensures forall k :: 0 <= k < |r| ==> |r[k].dots| == |data[k].axes|
    ensures forall k, j :: 0 <= k < |r| && 0 <= j < |r[k].dots| ==> r[k].dots[j] == k
  {
    seq(|data|, k requires 0 <= k < |data| => StyleOf(k, |data[k].axes|))
  }

  /** Blob `k` with `n` vertices. */
  function StyleOf(k: nat, n: nat): (b: BlobStyle)
    ensures b.area == k && b.stroke == k && |b.dots| == n
    ensures forall j :: 0 <= j < n ==> b.dots[j] == k
  {
    DotColourOfGroup(k);
    BlobStyle(k, k, seq(n, j => DotColour(GroupAttribute(k))))
  }

  /** Fill opacity of the blob areas while the mouse moves over them. */
  const Dimmed: real := 0.1
  const Highlighted: real := 0.7

  datatype HoverEvent = Enter(blob: nat) | Leave

  /** One `mouseover`/`mouseout` on blob areas: entering blob `j` dims every
      area and brings `j` up; leaving sets every area back to `base`
      (`cfg.opacityArea`). The 200 ms transitions are collapsed into their
      end values. */
  function Hover(opacity: seq<real>, e: HoverEvent, base: real): (r: seq<real>)
    ensures |r| == |opacity|
    ensures e.Leave? ==> forall k :: 0 <= k < |r| ==> r[k] == base
    ensures e.Enter? ==> forall k :: 0 <= k < |r| ==> r[k] == (if k == e.blob then Highlighted else Dimmed)
  {
    match e
    case Enter(j) => seq(|opacity|, k requires 0 <= k < |opacity| => if k == j then Highlighted else Dimmed)
    case Leave => seq(|opacity|, k requires 0 <= k < |opacity| => base)
  }

  /** The opacities of `n` blobs after a run of hover events, starting from `base` everywhere. */
  function Replay(n: nat, base: real, events: seq<HoverEvent>): (r: seq<real>)
    ensures |r| == n
  {
    if |events| == 0 then seq(n, k => base)
    else Hover(Replay(n, base, events[..|events| - 1]), events[|events| - 1], base)
  }

  /** Leaving the blobs restores the opacities the chart was drawn with,
      whatever happened before. */
  lemma LeaveRestores(n: nat, base: real, events: seq<HoverEvent>)
    ensures Replay(n, base, events + [Leave]) == Replay(n, base, [])
  {
    assert (events + [Leave])[..|events|] == events;
  }

  /** The opacities depend on the last event only. */
  lemma LastEventDecides(n: nat, base: real, before: seq<HoverEvent>, other: seq<HoverEvent>, e: HoverEvent)
    ensures Replay(n, base, before + [e]) == Replay(n, base, other + [e])
  {
    assert (before + [e])[..|before|] == before;
    assert (other + [e])[..|other|] == other;
  }

  /** While the mouse is over blob `j` it is the one area above every other. */
  lemma EnterSingles(n: nat, base: real, events: seq<HoverEvent>, j: nat)
    requires j < n
    ensures var r := Replay(n, base, events + [Enter(j)]);
      r[j] == Highlighted && forall k :: 0 <= k < n && k != j ==> r[k] < r[j]
  {
    assert (events + [Enter(j)])[..|events|] == events;
  }

  /** The parts both chart functions draw: the radius, the grid circles and
      the axis names, in the order the axes are laid out. */
  datatype Skeleton = Skeleton(radius: real, levelRadii: seq<real>, axes: seq<string>)

  /** `RadarChartEmpty(parent, allAxis, options)` on its merged configuration. */
  function EmptyChart(allAxis: seq<string>, cfg: RadarOptions.RenderConfig): (s: Skeleton)
    ensures s.axes == allAxis
    ensures s.radius == Min(cfg.w / 2.0, cfg.h / 2.0)
    ensures s.levelRadii == LevelRadii(s.radius, cfg.levels)
  {
    Skeleton(Radius(cfg.w, cfg.h), LevelRadii(Radius(cfg.w, cfg.h), cfg.levels), allAxis)
  }

  /** `data[0].axes.map(a => a.axis)` */
  function AxisNames(axes: seq<AxisSpec>): (names: seq<string>)
    ensures |names| == |axes|
    ensures forall i :: 0 <= i < |axes| ==> names[i] == axes[i].axis
  {
    seq(|axes|, i requires 0 <= i < |axes| => axes[i].axis)
  }

  /** A full radar chart: the skeleton, one domain per scale, the distance of
      every vertex from the centre (one row per entity, one entry per axis),
      and the colours of every blob. */
  datatype Chart = Chart(skeleton: Skeleton, domains: seq<Domain>, vertices: seq<seq<real>>, styles: seq<BlobStyle>)

  predicate HasScales(data: seq<Entity>, domains: seq<Domain>)
  {
    forall k :: 0 <= k < |data| ==> |data[k].axes| <= |domains|
  }

  function Vertices(data: seq<Entity>, domains: seq<Domain>, radius: real): (v: seq<seq<real>>)
    requires HasScales(data, domains)
    ensures |v| == |data|
    ensures forall k :: 0 <= k < |data| ==> |v[k]| == |data[k].axes|
    ensures forall k, i :: 0 <= k < |data| && 0 <= i < |data[k].axes| ==>
              v[k][i] == Scale(domains[i], radius, data[k].axes[i].value)
  {
    seq(|data|, k requires 0 <= k < |data| =>
      seq(|data[k].axes|, i requires 0 <= i < |data[k].axes| => Scale(domains[i], radius, data[k].axes[i].value)))
  }

  /** `RadarChart(parent, data, options)` on its merged configuration. The
      function throws on an empty `data` (it reads `data[0].axes`), and when
      some entity has more axes than there are scales (`scales[i]` is
      undefined), which only the value-scan branch allows. */
  function Draw(data: seq<Entity>, cfg: RadarOptions.RenderConfig): (r: Result<Chart, ChartError>)
    ensures r == Err(NoEntities) <==> |data| == 0
    ensures r == Err(MissingScale) <==>
              |data| > 0 && !UsesUnion(data) && exists k :: 0 <= k < |data| && |data[k].axes| > |data[0].axes|
    ensures r.Err? ==> r == Err(NoEntities) || r == Err(MissingScale)
    ensures r.Ok? ==> r.value.skeleton == EmptyChart(AxisNames(data[0].axes), cfg)
    ensures r.Ok? ==> r.value.domains == ResolveDomains(data, cfg.minValue, cfg.maxValue).value
    ensures r.Ok? ==> |r.value.vertices| == |data| && forall k :: 0 <= k < |data| ==> |r.value.vertices[k]| == |data[k].axes|
    ensures r.Ok? ==> forall k, i :: 0 <= k < |data| && 0 <= i < |data[k].axes| ==>
              r.value.vertices[k][i] == Scale(r.value.domains[i], r.value.skeleton.radius, data[k].axes[i].value)
    ensures r.Ok? ==> r.value.styles == Styles(data)
  {
    match ResolveDomains(data, cfg.minValue, cfg.maxValue)
    case Err(e) => Err(e)
    case Ok(domains) =>
      if !HasScales(data, domains) then Err(MissingScale)
      else
        var skeleton := EmptyChart(AxisNames(data[0].axes), cfg);
        Ok(Chart(skeleton, domains, Vertices(data, domains, skeleton.radius), Styles(data)))
  }

  /** When every axis carries a domain the union has a scale for every axis,
      so the chart is drawn for any non-empty data. */
  lemma UnionAlwaysDraws(data: seq<Entity>, cfg: RadarOptions.RenderConfig)
    requires |data| > 0 && AllHaveDomains(data)
    ensures Draw(data, cfg).Ok?
  {
  }

  /** In the value-scan branch with the default `minValue` of 0 or below,
      every vertex whose value is at least `minValue` lies between the centre
      and the outer circle (at the centre when the shared domain is a single
      point). */
  lemma {:induction false} FallbackVerticesInside(data: seq<Entity>, cfg: RadarOptions.RenderConfig, k: nat, i: nat)
    requires Draw(data, cfg).Ok? && !UsesUnion(data)
    requires cfg.w >= 0.0 && cfg.h >= 0.0
    requires k < |data| && i < |data[k].axes| && data[k].axes[i].value >= cfg.minValue
    ensures var c := Draw(data, cfg).value;
      0.0 <= c.vertices[k][i] <= c.skeleton.radius
  {
    var c := Draw(data, cfg).value;
    var d := FallbackDomain(data, cfg.minValue, cfg.maxValue);
    assert c.domains[i] == d;
    var v := data[k].axes[i].value;
    ValueListed(data, k, i);
    assert d.lo <= Max(cfg.minValue, v) == v;
    assert v <= d.hi;
    if d.lo != d.hi {
      ScaleInside(d, c.skeleton.radius, v);
    }
  }
}
