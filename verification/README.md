# d3 example pages: radar chart, scatter page, flights page, force graph

This project models the logic of two d3 example pages.

The **scatter page** plots a table of cars. Clicking a dot adds the car to a selection. A click on a selected dot, or on the "x" in front of its legend entry, removes it. The selection is shown in a **radar chart**, with one coloured blob per selected car and one axis per measurement. When nothing is selected, an empty chart shows only the grid and the axis names.

The **flights page** reads a table of flights between airports. It merges the two directions of every route into one link and totals the flights of every airport. The result is handed to a **force-directed graph**. Nodes in that graph can be dragged, and a dragged node stays pinned inside the drawing area until the drag ends.

Each part is a module:

- `Wrappers` holds the `Option` and `Result` types.
- `Strings` models JavaScript `join` and `split`, plus decimal rendering and parsing of integers.
- `OrderedMap` models a JavaScript `Map`: insertion-ordered, at most one entry per key.
- `RadarOptions` models the option merge of the two chart functions and the defaults they merge into.
- `RadarDomains` resolves the `[lo, hi]` domain of every axis. It has two branches: the union of the supplied domains, and the scan of all values.
- `TextWrap` is the greedy label wrapper. How wide a rendered line is comes in as a parameter.
- `RadarChart` covers the radius, the linear scales, the grid circles, the tooltip format, the blob colours, the hover opacities, and the two drawing functions `RadarChart` and `RadarChartEmpty`.
- `ScatterPage` covers `numberWithCommas`, `clamp`, the row ids, the selection map `mapRadar`, `drawRadar` and the legend under the chart.
- `FlightsPage` covers the swap button, the airports with data, the flight counts, the merged routes, the links and the nodes.
- `ForceGraph` covers `intern`, the node and link records, the colour domain, the hover titles, the drag handlers and `validate`.

Three modelling notes:

- The radar chart's union of supplied domains has a defect: an accumulated lower bound of 0 is treated as unset (see Findings). The model keeps the code's union (`RadarDomains.UnionDomains`) and proves what goes wrong. `RadarDomains.ResolveDomains`, and with it the whole chart, uses the intended union (`RadarDomains.IntendedUnionDomains`). On the scatter page every selected car carries the same domain on an axis, so there the two unions agree (`ScatterPage.PageUnionIsIntended`).
- The scan branch raises its lower bound with `max(cfg.minValue, …)` rather than lowering it. This is modelled as written.
- When the flights table lists the same route twice in the same direction, the second row replaces the first one's merged value instead of adding to it. This is also modelled as written: `FlightsPage.Merge` states the replacement and `FlightsPage.RepeatedRouteOverwrites` shows it on two rows. The value properties are stated for tables without such repeats.

## Model

| member | source | states |
|---|---|---|
| Strings.Split | examples/flights/main.js:172 | `key.split("-")` always yields at least one piece |
| Strings.SplitCount | examples/flights/main.js:172 | `split` yields one more piece than the string has separators |
| Strings.SplitJoin | examples/flights/main.js:152-156 | splitting a key at `-` gives back the parts it was joined from, when no part contains `-` |
| Strings.JoinSplit | examples/flights/main.js:172 | joining the pieces of a split with the separator restores the string; nothing is lost or added |
| Strings.DecimalString | examples/scatter/main.js:19 | `x.toString()` of a non-negative integer is all digits with no leading zero |
| Strings.IntToString | examples/flights/main.js:188 | the rendered flight count starts with a minus sign exactly when the count is negative |
| Strings.ParseDecimalString | examples/scatter/radarChart.js:241-285 | `parseInt` of the rendered index gives the index back |
| Strings.DecimalStringLength | examples/scatter/main.js:19 | a number has at most three digits exactly when it is below 1000 |
| OrderedMap.Find | examples/flights/main.js:153 | the position reported for a key is that of its first entry, and no position is reported exactly when no entry has the key |
| OrderedMap.Set | examples/flights/main.js:153-168 | `set` on a present key keeps the size and the order of the keys; on an absent key it appends at the end. The key then maps to the new value, every other key keeps its presence and value, and distinct keys stay distinct |
| OrderedMap.Delete | examples/scatter/main.js:146 | `delete` leaves no entry for the key and leaves a map without that key unchanged |
| OrderedMap.DeleteCutsOut | examples/scatter/main.js:376 | with distinct keys, `delete` removes exactly the entry of the key and keeps every other entry in its order |
| OrderedMap.SetThenDelete | examples/scatter/main.js:126-146 | adding an absent key and deleting it again restores the map |
| OrderedMap.DeletePreservesDistinct | examples/scatter/main.js:146 | deleting keeps keys distinct |
| OrderedMap.Values | examples/scatter/main.js:322 | `Array.from(map.values())` lists the values in insertion order |
| OrderedMap.SumValuesSet | examples/flights/main.js:153-168 | a `set` changes the total of the values by the new value minus the value it replaces |
| RadarOptions.Supplied | examples/scatter/radarChart.js:66-70 | the supplied options are the keys whose value is not `undefined`, and there are none when `options` itself is `undefined` |
| RadarOptions.MergeOptions | examples/scatter/radarChart.js:65-70 | the merged keys are the default keys plus the supplied ones; a supplied value wins, and every other key keeps its default |
| RadarOptions.MergeIdempotent | examples/scatter/radarChart.js:65-70 | merging the same options a second time changes nothing |
| RadarOptions.MergeNeverIntroducesUndefined | examples/scatter/radarChart.js:426-430 | the merge never makes a value `undefined` where the defaults have none |
| RadarOptions.ReadConfig | examples/scatter/radarChart.js:43-63 | a configuration read as chart settings holds those settings under `w`, `h`, `levels` and `format`, with the expected types |
| RadarOptions.PageMergedEntries | examples/scatter/main.js:311-320 | the page's chart gets width 290, height 350, 5 levels and format `.1f`, with `minValue`, `maxValue`, `opacityArea` and `unit` at their defaults |
| RadarOptions.PageConfiguration | examples/scatter/main.js:311-320 | the settings the page's chart is drawn with are exactly (290, 350, 5, 0, 0, `.1f`, 0.35, "") |
| RadarDomains.MaxAxes | examples/scatter/radarChart.js:74-80 | the union has one entry per axis of the widest entity: at least every entity's axis count, and equal to one of them |
| RadarDomains.Absorb | examples/scatter/radarChart.js:76-78 | one union step lowers the bound to at most the supplied lower end and raises it to at least the supplied upper end; a running lower bound other than 0 can only fall, but a running lower bound of exactly 0 is replaced, so a positive supplied lower end raises it |
| RadarDomains.AbsorbEntity | examples/scatter/radarChart.js:75-79 | one entity updates the first of its axis count of entries and leaves the later entries untouched |
| RadarDomains.UnionDomains | examples/scatter/radarChart.js:73-81 | the code's union has exactly as many entries as the widest entity has axes |
| RadarDomains.AxisUnion | examples/scatter/radarChart.js:76-78 | the code's union of axis `i` exists exactly when some entity has axis `i`. Its upper bound is the largest of 0 and the supplied upper bounds. Its lower bound is at most 10e10, and is 10e10 or some supplied lower bound. It is only guaranteed below the LAST supplied lower bound |
| RadarDomains.UnionByAxis | examples/scatter/radarChart.js:74-80 | the nested loops compute, for every axis, the per-axis running value, and nothing beyond the widest entity |
| RadarDomains.ScanMax | examples/scatter/radarChart.js:86-98 | the scanned maximum is at least 0 and every value, and is 0 or one of the values |
| RadarDomains.ScanMin | examples/scatter/radarChart.js:86-98 | the scanned minimum is at most 0 and every value, and is 0 or one of the values |
| RadarDomains.FallbackDomain | examples/scatter/radarChart.js:86-105 | the shared upper bound is at least `cfg.maxValue`, 0 and every value, and is one of them. The lower bound is `max(cfg.minValue, min(0, every value))`: at least `cfg.minValue` and at least 0 or some value, at most `max(cfg.minValue, 0)` and `max(cfg.minValue, v)` for every value `v` |
| RadarDomains.ResolveDomains | examples/scatter/radarChart.js:72-106 | empty data is an error. When every axis has a domain and there is at least one axis, the union branch gives the intended union. Otherwise every axis of the first entity gets the same scanned domain |
| RadarDomains.FallbackIsShared | examples/scatter/radarChart.js:73-105 | one missing `domain` anywhere sends every axis to one common domain |
| RadarDomains.UnionAxisBounds | examples/scatter/radarChart.js:72-81 | a resolved axis domain spans every domain supplied for that axis, together with 0 and 10e10. Each of its ends is 10e10, 0, or one of the supplied ends |
| RadarDomains.IntendedAxisUnion | examples/scatter/radarChart.js:76-78 | the intended union of axis `i` exists exactly when some entity has that axis, and spans every supplied domain for that axis |
| RadarDomains.IntendedUnionDomains | examples/scatter/radarChart.js:73-81 | one intended domain per axis of the widest entity, each present |
| RadarDomains.IntendedUnionMonotone | examples/scatter/radarChart.js:76-78 | widening any supplied domain can only widen the resolved domain |
| RadarDomains.UnionIntendedWithoutZero | examples/scatter/radarChart.js:77 | without a supplied lower bound of 0 the code's union is the intended one |
| RadarDomains.UnionIntendedWhenShared | examples/scatter/radarChart.js:76-78 | when every entity supplies the same domain `d`, the code's union equals the intended one, namely [min(10e10, d.lo), max(0, d.hi)] |
| RadarDomains.ZeroLowerBoundIsReset | examples/scatter/radarChart.js:77 | domains [3,10] and [5,10] resolve to [3,10], but widening the first to [0,10] resolves to [5,10]; the intended union gives [0,10] |
| TextWrap.SkipSpaces | examples/scatter/radarChart.js:20 | a leading whitespace run is dropped, leaving a suffix that starts with a non-space |
| TextWrap.SplitWords | examples/scatter/radarChart.js:20 | `split(/\s+/)` gives at least one piece, no piece holds whitespace, and only the first and last pieces can be empty |
| TextWrap.SplitWordsJoin | examples/scatter/radarChart.js:20 | single-spaced text splits into words that join back with `" "` into the text |
| TextWrap.LeadingWords | examples/scatter/radarChart.js:30 | `while (word = words.pop())` visits the words up to the first empty one, all non-empty |
| TextWrap.Place | examples/scatter/radarChart.js:30-38 | one loop step puts the word at the end of the lines, either on the current line or on a new one |
| TextWrap.PlaceWrapped | examples/scatter/radarChart.js:30-38 | one loop step keeps the loop invariant: lines cover the words in order, measured lines fit, and a line is closed only when the next word overflowed it |
| TextWrap.Greedy | examples/scatter/radarChart.js:22-39 | the loop always leaves at least one line; what the lines hold is stated by `TextWrap.GreedyWrapped` and `TextWrap.GreedyMeans` |
| TextWrap.GreedyWrapped | examples/scatter/radarChart.js:30-39 | the lines after any word sequence satisfy the loop invariant |
| TextWrap.GreedyMeans | examples/scatter/radarChart.js:17-41 | the lines the greedy loop builds hold the words in order, once each; only the first line can be empty, and it is exactly when the first word alone is too wide; every measured line fits; and a line is closed only when the next word would not fit |
| TextWrap.WrapLines | examples/scatter/radarChart.js:30-39 | every word lands on one line, in order. Only the first line can be empty, exactly when the first word alone is too wide. Every measured line fits the width. A line is closed exactly when adding the next line's first word makes it too wide |
| TextWrap.WrappedMeans | examples/scatter/radarChart.js:30-39 | the loop invariant implies the wrapping guarantees listed for `WrapLines` |
| TextWrap.Wrap | examples/scatter/radarChart.js:17-41 | the tspans hold the visited words in order; line `k` is offset by `k * 1.4 + dy` ems; and every line break happens where the next word overflows |
| RadarChart.Radius | examples/scatter/radarChart.js:111 | the radius is at most half the width and half the height, and equals one of them |
| RadarChart.Scale | examples/scatter/radarChart.js:122-127 | the scale of axis `i` maps its domain's lower end to the centre and its upper end to the outer circle; a domain with equal ends maps everything to the centre, as d3 versions 4 and 5 do |
| RadarChart.Invert | examples/scatter/radarChart.js:122-127 | on a domain of non-zero width, scaling the inverted distance gives the distance back |
| RadarChart.ScaleEnds | examples/scatter/radarChart.js:122-127 | a domain's ends map to the centre and to the outer circle |
| RadarChart.ScaleDegenerate | examples/scatter/radarChart.js:122-127 | on a single-point domain every value maps to the centre (the start of the range), as in d3 versions 4 and 5 |
| RadarChart.ScaleIncreasing | examples/scatter/radarChart.js:122-127 | on an increasing domain the scale is strictly increasing |
| RadarChart.ScaleInside | examples/scatter/radarChart.js:122-127 | values inside the domain land between the centre and the outer circle |
| RadarChart.InvertScale | examples/scatter/radarChart.js:122-127 | the scale's inverse gives every value back |
| RadarChart.Range | examples/scatter/radarChart.js:168 | `d3.range(a, b)` lists the integers from `a` up to `b`, exclusive |
| RadarChart.Reverse | examples/scatter/radarChart.js:168 | `reverse()` reads the list back to front |
| RadarChart.LevelRadii | examples/scatter/radarChart.js:167-172 | one grid circle per level; circle `k` from the outside has radius `radius / levels * (levels - k)`, the `k`-th entry of the reversed range `1..levels` |
| RadarChart.LevelRadiiEnds | examples/scatter/radarChart.js:167-172 | the outermost circle is the chart radius and the innermost a `levels`-th of it |
| RadarChart.LevelRadiiSpacing | examples/scatter/radarChart.js:167-172 | neighbouring circles are a `levels`-th of the radius apart, shrinking inwards |
| RadarChart.JsRemOne | examples/scatter/radarChart.js:114 | JavaScript's `d % 1` lies strictly between -1 and 1 and has the sign of `d` |
| RadarChart.RemOneZeroIffWhole | examples/scatter/radarChart.js:114 | `d % 1 == 0` holds exactly for whole numbers, negative ones included |
| RadarChart.LastChar | examples/scatter/radarChart.js:113 | `slice(-1)` is the last character, or empty for an empty format |
| RadarChart.TooltipSpecifier | examples/scatter/radarChart.js:112-114 | whole numbers are formatted with `.0` and the format's type letter; other numbers with the format itself |
| RadarChart.GroupAttribute | examples/scatter/radarChart.js:241 | the `i` attribute of a blob group is a string of digits |
| RadarChart.DotColourOfGroup | examples/scatter/radarChart.js:241-285 | `parseInt` of the group's `i` attribute is the blob's index, so the dots share their blob's colour |
| RadarChart.Styles | examples/scatter/radarChart.js:248-285 | blob `k` has area, outline and every dot in colour `k`, one dot per axis |
| RadarChart.StyleOf | examples/scatter/radarChart.js:248-285 | a blob's style uses its own index for area, outline and each of its dots |
| RadarChart.Hover | examples/scatter/radarChart.js:250-265 | entering blob `j` gives it opacity 0.7 and every other area 0.1; leaving sets every area back to the configured opacity |
| RadarChart.LeaveRestores | examples/scatter/radarChart.js:260-265 | after leaving, the opacities are those the chart was drawn with, whatever happened before |
| RadarChart.LastEventDecides | examples/scatter/radarChart.js:250-265 | the opacities depend only on the last hover event |
| RadarChart.EnterSingles | examples/scatter/radarChart.js:250-259 | while the mouse is over blob `j`, it is strictly more opaque than every other area |
| RadarChart.EmptyChart | examples/scatter/radarChart.js:376-488 | the empty chart lays out the given axis names with the radius and grid circles of its configuration |
| RadarChart.AxisNames | examples/scatter/radarChart.js:109 | the axis names are those of the first entity, in order |
| RadarChart.Vertices | examples/scatter/radarChart.js:227-230 | vertex `i` of entity `k` lies at axis `i`'s scale applied to its value, one vertex per axis |
| RadarChart.Draw | examples/scatter/radarChart.js:15-330 | drawing fails exactly on empty data, or when the scan branch leaves some entity with more axes than scales. Otherwise it uses the resolved domains and the first entity's axis names, places every vertex by its axis scale, and colours blob `k` with colour `k` |
| RadarChart.UnionAlwaysDraws | examples/scatter/radarChart.js:73-127 | when every axis carries a domain, any non-empty data is drawn |
| RadarChart.FallbackVerticesInside | examples/scatter/radarChart.js:86-127 | in the scan branch, a value at or above `minValue` is drawn between the centre and the outer circle; on a single-point domain it is drawn at the centre |
| ScatterPage.InsertCommas | examples/scatter/main.js:19 | the replacement drops no character; where the commas go is stated by `ScatterPage.InsertCommasEnds` and `ScatterPage.RegexIsGrouping` |
| ScatterPage.InsertCommasEnds | examples/scatter/main.js:19 | the regular-expression replacement keeps every digit, never puts a comma before the first digit, and never after the last |
| ScatterPage.Chunks | examples/scatter/main.js:19 | the digit groups counted from the end are one group exactly for at most three characters, and are all digits for a digit string |
| ScatterPage.ChunkSizes | examples/scatter/main.js:19 | the first group has one to three digits, every later group exactly three |
| ScatterPage.ChunksConcat | examples/scatter/main.js:19 | the groups written one after another give the string back |
| ScatterPage.RegexIsGrouping | examples/scatter/main.js:19 | inserting a comma at every match of `\B(?=(\d{3})+(?!\d))` is the same as joining the groups of three with commas |
| ScatterPage.NumberWithCommas | examples/scatter/main.js:19 | splitting the result at its commas gives the groups of three digits of the number |
| ScatterPage.NumberWithCommasGroups | examples/scatter/main.js:19 | removing the commas restores the decimal string; the groups are 1-3 then 3 digits; a comma appears exactly from 1000 on |
| ScatterPage.Clamp | examples/scatter/main.js:31 | the result lies in `[min, max]` when that range is non-empty; values already inside are unchanged; an empty range gives `max` |
| ScatterPage.ClampIdempotent | examples/scatter/main.js:31 | clamping a clamped value changes nothing |
| ScatterPage.ClampMonotone | examples/scatter/main.js:31 | clamping keeps the order of values |
| ScatterPage.AssignIds | examples/scatter/main.js:49-51 | row `i` gets id `i` and is otherwise unchanged, so ids are unique |
| ScatterPage.MakeRecord | examples/scatter/main.js:126-138 | a stored record has the six page axes, each with the page-wide domain, the car's readings, name, type and id |
| ScatterPage.Click | examples/scatter/main.js:119-149 | a click toggles exactly the clicked car: it is appended when absent and removed when present, other cars are unaffected, and the selection stays well-formed |
| ScatterPage.DeleteFromSelection | examples/scatter/main.js:146 | deleting a selected id cuts out its entry and keeps the selection well-formed |
| ScatterPage.DeleteKeys | examples/scatter/main.js:146 | deleting an id removes it and only it |
| ScatterPage.ClickTwiceRestores | examples/scatter/main.js:119-149 | selecting and then deselecting a car gives back the selection |
| ScatterPage.LegendRemove | examples/scatter/main.js:370-378 | the "x" of entry `i` leaves no entry for that record's id |
| ScatterPage.LegendRemovesEntry | examples/scatter/main.js:370-378 | on a well-formed selection the "x" of entry `i` removes exactly entry `i`, keeps the order of the others, and keeps the selection well-formed |
| ScatterPage.Entities | examples/scatter/main.js:322 | the chart data are the selected records' entities in click order |
| ScatterPage.Legend | examples/scatter/main.js:342-387 | one legend entry per selected car, in order: entry `i` is named after car `i`, has colour `i`, its circle at `y = 16 + 20i`, and its "x" and name at `y = 20 + 20i`; the background is `12 + 20n` high |
| ScatterPage.LegendFits | examples/scatter/main.js:346-384 | every marker and baseline lies inside the background, the "x" shares the name's baseline, and neighbouring markers do not touch |
| ScatterPage.DrawRadar | examples/scatter/main.js:309-390 | an empty selection draws the empty chart over the six page axes, with its radius and grid circles; otherwise the chart of the selected cars in click order, with one legend entry per car and a background `12 + 20n` high |
| ScatterPage.PageChartDraws | examples/scatter/main.js:322-357 | a non-empty page selection always draws. The full chart keeps the empty chart's axes, radius and grid, and legend entry `i` has blob `i`'s colour |
| ScatterPage.PageUnionIsIntended | examples/scatter/main.js:126-138 | on the page the code's union of the domains equals the intended one, namely the page domain capped at 10e10 below and raised to at least 0 above |
| FlightsPage.Swap | examples/flights/main.js:24-35 | a click flips `map_active`; afterwards exactly one view is shown, and it is the map exactly when the map is active |
| FlightsPage.SwapTwice | examples/flights/main.js:24-35 | after any click the display agrees with `map_active`; from such a state two clicks change nothing |
| FlightsPage.AirportsWithData | examples/flights/main.js:145-150 | both ends of every row are airports with data |
| FlightsPage.AirportsWithDataMembers | examples/flights/main.js:145-150 | an airport has data exactly when some row starts or ends there |
| FlightsPage.Tally | examples/flights/main.js:159-168 | a count step adds the value to the airport's entry, creating it at the value, and leaves every other entry alone |
| FlightsPage.CountFlights | examples/flights/main.js:147-168 | `count_flights` has at most two entries per row |
| FlightsPage.CountFlightsTotals | examples/flights/main.js:159-168 | `count_flights` has one entry per airport with data, holding the value of every row leaving or reaching it; the entries total twice the flights |
| FlightsPage.TotalWithout | examples/flights/main.js:159-168 | an airport no row mentions has no flights |
| FlightsPage.Key | examples/flights/main.js:152-156 | the route key is one character longer than the two airport codes together; its text, origin-dash-destination, is stated by `FlightsPage.KeyText` and its splitting back by `FlightsPage.KeySplits` |
| FlightsPage.KeyText | examples/flights/main.js:152-156 | the route key is the origin, a `-`, and the destination |
| FlightsPage.KeySplits | examples/flights/main.js:156-172 | a route key splits back into its two dash-free airports |
| FlightsPage.KeyInjective | examples/flights/main.js:152-156 | keys of dash-free codes are equal exactly for the same route |
| FlightsPage.FlightsOnceRoutes | examples/flights/main.js:146-157 | every key of `flights_only_once` is a row's own direction, and every row's route has an entry under exactly one of its two keys |
| FlightsPage.Merge | examples/flights/main.js:152-157 | a row whose reverse key is present adds its flights to that entry; otherwise its own key is SET to the row's flights, replacing any earlier value; every key other than the one written is untouched (so a present reverse key never gains a second, own-direction entry), and the map grows by at most one entry |
| FlightsPage.FlightsOnce | examples/flights/main.js:146-157 | `flights_only_once` has at most one entry per row |
| FlightsPage.RepeatedRouteOverwrites | examples/flights/main.js:152-157 | rows A→B 5 and A→B 7 give the single entry `A-B` with 7: a route repeated in one direction is replaced, not summed |
| FlightsPage.MergeKeepsRoutes | examples/flights/main.js:152-157 | one merge step keeps that route invariant |
| FlightsPage.PairSumSymmetric | examples/flights/main.js:152-157 | the flights between two airports do not depend on the direction asked |
| FlightsPage.FlightsOnceValues | examples/flights/main.js:152-157 | with no route repeated in one direction, each route's entry holds the flights of both its directions, and the entries total all flights |
| FlightsPage.MergeKeepsValues | examples/flights/main.js:152-157 | one merge step keeps that value invariant |
| FlightsPage.MergeIntoReverse | examples/flights/main.js:153-154 | a row whose reverse is merged adds its value to that entry |
| FlightsPage.MergeAsNew | examples/flights/main.js:155-156 | a row whose route is not merged yet gets an entry of its own with its value |
| FlightsPage.LinkOf | examples/flights/main.js:171-173 | a link carries its entry's value; it has a destination exactly when the key contains `-`, and a key without `-` is the origin whole |
| FlightsPage.Links | examples/flights/main.js:170-174 | one link per merged entry, in insertion order, each with that entry's value |
| FlightsPage.LinksFollowRows | examples/flights/main.js:170-174 | every link has both ends, its key is the entry's key, its value the entry's value, and some row runs from its origin to its destination |
| FlightsPage.LinksOncePerRoute | examples/flights/main.js:146-174 | no two links join the same two airports in either direction |
| FlightsPage.LinkValues | examples/flights/main.js:146-174 | a link's value is the flights between its airports in both directions, and the links total all flights |
| FlightsPage.Nodes | examples/flights/main.js:176 | nodes are listed airports that have data, at most one per listed airport, each valued at its flight total |
| FlightsPage.NodeIdsAre | examples/flights/main.js:176 | the node ids are exactly the listed airports that have data |
| FlightsPage.NodesSingle | examples/flights/main.js:176 | a single airport gives one node carrying its id, state, name and flight total when it has data, and none otherwise |
| FlightsPage.NodesAppend | examples/flights/main.js:176 | the nodes of two airport lists one after the other are the nodes of the first followed by those of the second, so nodes keep the order of the airport list |
| FlightsPage.LinksReachNodes | examples/flights/main.js:170-176 | when every airport of the flights table is listed, both ends of every link are nodes |
| ForceGraph.Intern | examples/flights/forceGraph.js:126-128 | `intern` unwraps wrapper objects to their primitive and leaves primitives and plain objects as they are |
| ForceGraph.InternIdempotent | examples/flights/forceGraph.js:126-128 | interning twice is interning once, and a wrapper and its primitive intern alike |
| ForceGraph.Column | examples/flights/forceGraph.js:35-41 | `xs.map(f).map(intern)` is the interned accessor value of each input, index by index |
| ForceGraph.GraphNodes | examples/flights/forceGraph.js:35-46 | one node record per input; its id, group and value are interned, so never a wrapper object, and its title is the accessor's |
| ForceGraph.GraphLinks | examples/flights/forceGraph.js:36-47 | one link record per input; its source, target and length are interned, so never a wrapper object |
| ForceGraph.GraphNodesPointwise | examples/flights/forceGraph.js:35-46 | node record `i` is built from input `i` alone, with interned id, group and value, so mapping a concatenation maps each part |
| ForceGraph.GraphLinksPointwise | examples/flights/forceGraph.js:36-47 | link record `i` is built from input `i` alone, with interned source, target and length, so mapping a concatenation maps each part |
| ForceGraph.Distinct | examples/flights/forceGraph.js:51 | `Array.from(new Set(G))` has the same members as the groups, without repeats |
| ForceGraph.InsertSorted | examples/flights/forceGraph.js:51 | inserting a new group into an ascending list keeps it ascending and adds exactly that group |
| ForceGraph.SortDistinct | examples/flights/forceGraph.js:51 | sorting distinct groups ascending keeps the members and the count |
| ForceGraph.ColourDomain | examples/flights/forceGraph.js:50-52 | the colour domain is strictly ascending and holds exactly the groups that occur |
| ForceGraph.IncreasingUnique | examples/flights/forceGraph.js:51 | two strictly ascending lists with the same members are equal |
| ForceGraph.ColourDomainIsSortedGroups | examples/flights/forceGraph.js:50-52 | the colour domain is THE ascending list of the groups: it depends only on which groups occur |
| ForceGraph.Title | examples/flights/forceGraph.js:103-110 | a title with no properties is empty; otherwise it ends with the last `key: value` line |
| ForceGraph.JoinEndsWithLast | examples/flights/forceGraph.js:109 | a join ends with its last part, not with a separator |
| ForceGraph.TitleSplits | examples/flights/forceGraph.js:103-110 | splitting the title at newlines gives one `key: value` line per property, in order |
| ForceGraph.FlightsTitle | examples/flights/main.js:188 | a flights-page node's title reads back as three lines: `Name: …`, `State: …` and `Flights: …` |
| ForceGraph.Validate | examples/flights/forceGraph.js:160-164 | `validate` puts the value in `[a, b]` when that range is non-empty and keeps values already inside; an empty range gives `b` |
| ForceGraph.ValidateIsClamp | examples/flights/forceGraph.js:160-164 | `validate` equals the pages' `clamp` on every input |
| ForceGraph.OnDrag | examples/flights/forceGraph.js:143-158 | the handlers never move the node. Start pins it where it is. Drag pins it at the pointer, kept inside the drawing area. End unpins it. Only the first start or last end changes `alphaTarget`, to 0.3 and to 0 |
| ForceGraph.GesturePins | examples/flights/forceGraph.js:143-158 | after any run of drag events, the node is pinned exactly when the last event is not an end, and a pin from a drag lies inside the drawing area |

## Left out

- Trigonometry: vertex, label and axis-line positions (`cos`, `sin`, `angleSlice`). A vertex is described by its distance from the centre.
- `d3.format` output and the tooltip text: the model stops at the format specifier, because number formatting is d3's code.
- An invalid `cfg.format` specifier: `d3.format` throws on it (examples/scatter/radarChart.js:112-113). `RadarChart.Draw` does not model that error, because which specifiers d3 accepts is d3's code.
- SVG attributes, styles, transitions and timing (the 200 ms hover transitions are collapsed into their end values), the glow filter, `scaleW`/`scaleH` sizing and margins.
- The radar chart's optional internal legend (examples/scatter/radarChart.js:332-372): the page never passes a `legend` option.
- The curve choice (`roundStrokes`) of `radialLine`: path shapes are SVG output.
- The scatter plot itself: its axes, scales, dot sizes, tooltips and colour legend are drawing code.
- The unit conversions `mpg2lp100km`, `lbs2kg` and `in2cm`: a car's readings enter the model already converted, because floating-point rounding is not modelled.
- CSV loading, `parseInt` of table values and `NaN`: flight values and readings enter as numbers.
- The map view of the flights page (projection, state shapes, airport dots): it is drawing code.
- The force simulation's physics, the `scalePow` link lengths and widths, and the `scaleSqrt` node radii: these are d3 numerics.
- The ordinal scale's lookup of a colour by group: the model stops at its domain.
- `ForceGraph.GraphNodes`: null `nodeGroup`, `nodeTitle` or `nodeValue` accessors are not modelled, because the page supplies all of them.
- The initial style of the swap views: `FlightsPage.SwapTwice` states agreement after the first click.
- `TextWrap.Wrap`: the rendered text width (`getComputedTextLength`) is a parameter, any function from a line to a width.
- `FlightsPage.LinkValues`: stated only for tables that do not list a route twice in the same direction. With such a repeat the code's `set` replaces the earlier merged value.
- `FlightsPage.FlightsOnceValues`: same restriction as `FlightsPage.LinkValues`.
- `FlightsPage.LinksFollowRows`: stated for airport codes without `-`. A code with `-` would be cut apart by `key.split("-")`.
- `FlightsPage.FlightsOnceRoutes`: stated for airport codes without `-`, for the same reason.
- `RadarDomains.ResolveDomains`: uses the intended union of the supplied domains rather than the code's (see Findings).
- `ForceGraph.ColourDomain`: groups are integers (the page's `coloring` values). `d3.ascending` on mixed types is not modelled.

## Findings

| source | as written | input that shows it | evidently intended | confidence | as-written member | corrected member |
|---|---|---|---|---|---|---|
| examples/scatter/radarChart.js:77 | `Math.min(domains[i][0] \|\| 10e10, …)` treats an accumulated lower bound of 0 as unset and resets it to 10e10 | two entities with domains [0,10] and [5,10] on one axis resolve to [5,10]; with [3,10] and [5,10] they resolve to [3,10], so widening a domain narrowed the result | the lower bound is the smallest supplied lower bound (`?? 10e10`), giving [0,10] | not executed | RadarDomains.ZeroLowerBoundIsReset | RadarDomains.IntendedUnionMonotone |
