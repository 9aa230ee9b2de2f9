/** The option merge at the top of `RadarChart` and `RadarChartEmpty`: a
    default configuration object whose entries are overwritten, one key at a
    time, by every option the caller supplied that is not `undefined`. */
module RadarOptions {
  import opened Wrappers

  /** A JavaScript value, as far as the merge and the chart tell them apart.
      Objects and functions (the margin object, the colour scale, a legend
      object) are opaque and told apart by a tag. */
  datatype Value =
    | Undefined
    | Null
    | Bool(b: bool)
    | Num(n: real)
    | Str(s: string)
    | Opaque(tag: string)

  /** A property name of the configuration object: one of the documented
      options, or any other name a caller's options object may carry (the
      merge copies every key). */
  datatype Key =
    | W | ScaleW | H | ScaleH | Margin | Levels | MaxValue | MinValue
    | LabelFactor | WrapWidth | OpacityArea | DotRadius | OpacityCircles
    | StrokeWidth | RoundStrokes | Color | Format | Unit | Legend
    | Other(name: string)

  /** A configuration object: property name to value. */
  type Config = map<Key, Value>

  /** The options a caller actually set: its keys whose value is not `undefined`. */
  function Supplied(options: Option<Config>): (keys: set<Key>)
    ensures options.None? ==> keys == {}
    ensures options.Some? ==> forall k :: k in keys <==> k in options.value && options.value[k] != Undefined
  {
    match options
    case None => {}
    case Some(o) => set k | k in o && o[k] != Undefined
  }

  /** The merged configuration. `options` is `None` when the caller passed
      `undefined`. The merge is shallow: a supplied `margin` object replaces
      the default margin object as a whole. */
  function MergeOptions(defaults: Config, options: Option<Config>): (cfg: Config)
    ensures cfg.Keys == defaults.Keys + Supplied(options)
    ensures forall k :: k in Supplied(options) ==> cfg[k] == options.value[k]
    ensures forall k :: k in defaults && k !in Supplied(options) ==> cfg[k] == defaults[k]
  {
    match options
    case None => defaults
    case Some(o) => defaults + map k | k in Supplied(options) :: o[k]
  }

  /** Merging the same options a second time changes nothing. */
  lemma MergeIdempotent(defaults: Config, options: Option<Config>)
    ensures MergeOptions(MergeOptions(defaults, options), options) == MergeOptions(defaults, options)
  {
  }

  /** A merged value is `undefined` only where the default already was. */
  lemma MergeNeverIntroducesUndefined(defaults: Config, options: Option<Config>)
    requires forall k :: k in defaults ==> defaults[k] != Undefined
    ensures forall k :: k in MergeOptions(defaults, options) ==> MergeOptions(defaults, options)[k] != Undefined
  {
  }

  /** The options `RadarChart` documents, each with a default (radarChart.js
      lines 43-63). */
  const DocumentedKeys: set<Key> :=
    {W, ScaleW, H, ScaleH, Margin, Levels, MaxValue, MinValue, LabelFactor, WrapWidth,
     OpacityArea, DotRadius, OpacityCircles, StrokeWidth, RoundStrokes, Color, Format, Unit, Legend}

  /** The default value of a documented option. */
  function DefaultValue(k: Key): Value
  {
    match k
    case W => Num(600.0)
    case ScaleW => Null
    case H => Num(600.0)
    case ScaleH => Null
    case Margin => Opaque("default margin")
    case Levels => Num(3.0)
    case MaxValue => Num(0.0)
    case MinValue => Num(0.0)
    case LabelFactor => Num(1.4)
    case WrapWidth => Num(60.0)
    case OpacityArea => Num(0.35)
    case DotRadius => Num(4.0)
    case OpacityCircles => Num(0.1)
    case StrokeWidth => Num(2.0)
    case RoundStrokes => Bool(false)
    case Color => Opaque("category10 ordinal scale")
    case Format => Str(".2%")
    case Unit => Str("")
    case Legend => Bool(false)
    case Other(_) => Undefined
  }

  /** The defaults of `RadarChart`. */
  const RadarDefaults: Config := map k | k in DocumentedKeys :: DefaultValue(k)

  /** The defaults of `RadarChartEmpty`: the same, without `minValue`. */
  const EmptyChartDefaults: Config := RadarDefaults - {MinValue}

  /** The options `drawRadar` sets. */
  const PageKeys: set<Key> := {W, H, ScaleW, ScaleH, Margin, Levels, RoundStrokes, Format}

  /** The value `drawRadar` gives each option it sets. */
  function PageValue(k: Key): Value
  {
    match k
    case W => Num(290.0)
    case H => Num(350.0)
    case ScaleW => Num(250.0)
    case ScaleH => Num(250.0)
    case Margin => Opaque("radar margin")
    case Levels => Num(5.0)
    case RoundStrokes => Bool(true)
    case Format => Str(".1f")
    case _ => Undefined
  }

  /** The options `drawRadar` passes to both chart functions. */
  const DrawRadarOptions: Config := map k | k in PageKeys :: PageValue(k)

  /** The typed settings the chart geometry reads from a merged configuration. */
  datatype RenderConfig = RenderConfig(
    w: real, h: real, levels: int, minValue: real, maxValue: real,
    format: string, opacityArea: real, unit: string)

  function NumberAt(cfg: Config, key: Key, otherwise: real): (r: Option<real>)
    ensures key !in cfg ==> r == Some(otherwise)
    ensures key in cfg && cfg[key].Num? ==> r == Some(cfg[key].n)
    ensures key in cfg && !cfg[key].Num? ==> r.None?
  {
    if key !in cfg then Some(otherwise)
    else if cfg[key].Num? then Some(cfg[key].n)
    else None
  }

  function StringAt(cfg: Config, key: Key): (r: Option<string>)
    ensures r.Some? <==> key in cfg && cfg[key].Str?
    ensures r.Some? ==> r.value == cfg[key].s
  {
    if key in cfg && cfg[key].Str? then Some(cfg[key].s) else None
  }

  /** Reads the settings of a merged configuration when they have the types
      the chart code uses them at (numbers, a whole number of levels, a
      format string). A missing `minValue`, as in `RadarChartEmpty`, reads as 0
      since that chart never uses it. */
  function ReadConfig(cfg: Config): (r: Option<RenderConfig>)
    ensures r.Some? ==> W in cfg && cfg[W] == Num(r.value.w)
    ensures r.Some? ==> H in cfg && cfg[H] == Num(r.value.h)
    ensures r.Some? ==> Levels in cfg && cfg[Levels] == Num(r.value.levels as real)
    ensures r.Some? ==> Format in cfg && cfg[Format] == Str(r.value.format)
  {
    var w := NumberAt(cfg, W, 0.0);
    var h := NumberAt(cfg, H, 0.0);
    var lv := NumberAt(cfg, Levels, 0.0);
    var lo := NumberAt(cfg, MinValue, 0.0);
    var hi := NumberAt(cfg, MaxValue, 0.0);
    var op := NumberAt(cfg, OpacityArea, 0.0);
    var fmt := StringAt(cfg, Format);
    var unit := StringAt(cfg, Unit);
    if W in cfg && H in cfg && Levels in cfg
       && w.Some? && h.Some? && lv.Some? && lo.Some? && hi.Some? && op.Some?
       && fmt.Some? && unit.Some? && lv.value.Floor as real == lv.value
    then Some(RenderConfig(w.value, h.value, lv.value.Floor, lo.value, hi.value,
                           fmt.value, op.value, unit.value))
    else None
  }

  /** A supplied option is taken over as it is. */
  lemma MergedSupplied(defaults: Config, o: Config, k: Key)
    requires k in o && o[k] != Undefined
    ensures k in MergeOptions(defaults, Some(o)) && MergeOptions(defaults, Some(o))[k] == o[k]
  {
  }

  /** An option the caller did not mention keeps its default. */
  lemma MergedDefault(defaults: Config, o: Config, k: Key)
    requires k in defaults && k !in o
    ensures k in MergeOptions(defaults, Some(o)) && MergeOptions(defaults, Some(o))[k] == defaults[k]
  {
  }

  /** The configuration `drawRadar` hands to `RadarChart`, after the merge. */
  const PageMerged: Config := MergeOptions(RadarDefaults, Some(DrawRadarOptions))

  /** The page's options set the size, the levels and the format, and leave
      the value range, the opacity and the unit to the defaults. */
  lemma PageOptions()
    ensures W in DrawRadarOptions && DrawRadarOptions[W] == Num(290.0)
    ensures H in DrawRadarOptions && DrawRadarOptions[H] == Num(350.0)
    ensures Levels in DrawRadarOptions && DrawRadarOptions[Levels] == Num(5.0)
    ensures Format in DrawRadarOptions && DrawRadarOptions[Format] == Str(".1f")
    ensures MinValue !in DrawRadarOptions && MaxValue !in DrawRadarOptions
    ensures OpacityArea !in DrawRadarOptions && Unit !in DrawRadarOptions
  {
  }

  lemma PageDefaults()
    ensures MinValue in RadarDefaults && RadarDefaults[MinValue] == Num(0.0)
    ensures MaxValue in RadarDefaults && RadarDefaults[MaxValue] == Num(0.0)
    ensures OpacityArea in RadarDefaults && RadarDefaults[OpacityArea] == Num(0.35)
    ensures Unit in RadarDefaults && RadarDefaults[Unit] == Str("")
  {
  }

  /** What the page's kind of options, merged over defaults of the page's
      kind, leaves in the entries the chart reads. */
  lemma MergedPageEntries(defaults: Config, o: Config)
    requires W in o && o[W] == Num(290.0)
    requires H in o && o[H] == Num(350.0)
    requires Levels in o && o[Levels] == Num(5.0)
    requires Format in o && o[Format] == Str(".1f")
    requires MinValue !in o && MaxValue !in o && OpacityArea !in o && Unit !in o
    requires MinValue in defaults && defaults[MinValue] == Num(0.0)
    requires MaxValue in defaults && defaults[MaxValue] == Num(0.0)
    requires OpacityArea in defaults && defaults[OpacityArea] == Num(0.35)
    requires Unit in defaults && defaults[Unit] == Str("")
    ensures var m := MergeOptions(defaults, Some(o));
      && W in m && m[W] == Num(290.0) && H in m && m[H] == Num(350.0)
      && Levels in m && m[Levels] == Num(5.0) && Format in m && m[Format] == Str(".1f")
      && MinValue in m && m[MinValue] == Num(0.0) && MaxValue in m && m[MaxValue] == Num(0.0)
      && OpacityArea in m && m[OpacityArea] == Num(0.35) && Unit in m && m[Unit] == Str("")
    ensures ReadConfig(MergeOptions(defaults, Some(o)))
            == Some(RenderConfig(290.0, 350.0, 5, 0.0, 0.0, ".1f", 0.35, ""))
  {
    var m := MergeOptions(defaults, Some(o));
    assert m[W] == Num(290.0) && m[H] == Num(350.0) && m[Levels] == Num(5.0) && m[Format] == Str(".1f");
    assert m[MinValue] == Num(0.0) && m[MaxValue] == Num(0.0) && m[OpacityArea] == Num(0.35) && m[Unit] == Str("");
  }

  /** The merged entries the page's chart reads: the page's size, five
      levels and the `.1f` format; value range, opacity and unit at their
      defaults. */
  lemma PageMergedEntries()
    ensures W in PageMerged && PageMerged[W] == Num(290.0)
    ensures H in PageMerged && PageMerged[H] == Num(350.0)
    ensures Levels in PageMerged && PageMerged[Levels] == Num(5.0)
    ensures Format in PageMerged && PageMerged[Format] == Str(".1f")
    ensures MinValue in PageMerged && PageMerged[MinValue] == Num(0.0)
    ensures MaxValue in PageMerged && PageMerged[MaxValue] == Num(0.0)
    ensures OpacityArea in PageMerged && PageMerged[OpacityArea] == Num(0.35)
    ensures Unit in PageMerged && PageMerged[Unit] == Str("")
  {
    PageOptions();
    PageDefaults();
    MergedPageEntries(RadarDefaults, DrawRadarOptions);
  }

  /** The configuration the scatter page's radar chart is drawn with: the
      page's sizes, five levels and the `.1f` format, every other setting at
      its default. */
  lemma PageConfiguration()
    ensures ReadConfig(PageMerged) == Some(RenderConfig(290.0, 350.0, 5, 0.0, 0.0, ".1f", 0.35, ""))
  {
    PageOptions();
    PageDefaults();
    MergedPageEntries(RadarDefaults, DrawRadarOptions);
  }
}
