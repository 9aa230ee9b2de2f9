/** The parts of `ForceGraph` (examples/flights/forceGraph.js) that are not
    d3 itself: the records handed to the simulation, the colour domain, the
    hover titles, and the drag handlers with their `validate` clamp. */
module ForceGraph {
  import opened Wrappers
  import Strings
  import ScatterPage

  /* ---------------------------------------------------------------------
     intern
     --------------------------------------------------------------------- */

  /** A primitive JavaScript value. */
  datatype Prim = Null | Undefined | Bool(b: bool) | Num(n: real) | Str(s: string)

  /** A value an accessor may return: a primitive, a wrapper object around
      one (`new Number(3)`), or a plain object, which is its own
      `valueOf()`. */
  datatype Js = Primitive(p: Prim) | Wrapper(inner: Prim) | Object(ref: nat)

  /** `intern`: a wrapper object is replaced by the primitive it wraps. */
  function Intern(v: Js): (r: Js)
    ensures !r.Wrapper?
    ensures v.Primitive? || v.Object? ==> r == v
    ensures v.Wrapper? ==> r == Primitive(v.inner)
  {
    match v
    case Wrapper(p) => Primitive(p)
    case _ => v
  }

  /** Interning twice is interning once, and a wrapper compares equal to its
      primitive once both are interned. */
  lemma InternIdempotent(v: Js, p: Prim)
    ensures Intern(Intern(v)) == Intern(v)
    ensures Intern(Wrapper(p)) == Intern(Primitive(p))
  {
  }

  /* ---------------------------------------------------------------------
     the node and link records
     --------------------------------------------------------------------- */

  /** `{id, group, title, value}` of a simulation node. */
  datatype GraphNode = GraphNode(id: Js, group: Js, title: seq<(string, string)>, value: Js)

  /** `{source, target, length}` of a simulation link. */
  datatype GraphLink = GraphLink(source: Js, target: Js, length: Js)

  /** The accessors the page hands over for nodes. */
  datatype NodeAccess<!T> = NodeAccess(nodeId: T -> Js, nodeGroup: T -> Js, nodeTitle: T -> seq<(string, string)>, nodeValue: T -> Js)

  /** The accessors the page hands over for links. */
  datatype LinkAccess<!T> = LinkAccess(linkSource: T -> Js, linkTarget: T -> Js, linkStrength: T -> Js)

  /** `nodes.map(f).map(intern)`. */
  function Column<T>(xs: seq<T>, f: T -> Js): (r: seq<Js>)
    ensures |r| == |xs|
    ensures forall i :: 0 <= i < |xs| ==> r[i] == Intern(f(xs[i]))
  {
    seq(|xs|, i requires 0 <= i < |xs| => Intern(f(xs[i])))
  }

  /** The arrays N, G, T and V, then the node records built index by index. */
  function GraphNodes<T>(nodes: seq<T>, acc: NodeAccess<T>): (r: seq<GraphNode>)
    ensures |r| == |nodes|
    ensures forall i :: 0 <= i < |r| ==> !r[i].id.Wrapper? && !r[i].group.Wrapper? && !r[i].value.Wrapper?
    ensures forall i :: 0 <= i < |r| ==> r[i].title == acc.nodeTitle(nodes[i])
  {
    var ids := Column(nodes, acc.nodeId);
    var groups := Column(nodes, acc.nodeGroup);
    var titles := seq(|nodes|, i requires 0 <= i < |nodes| => acc.nodeTitle(nodes[i]));
    var values := Column(nodes, acc.nodeValue);
    seq(|nodes|, i requires 0 <= i < |nodes| => GraphNode(ids[i], groups[i], titles[i], values[i]))
  }

  /** The arrays LS, LT and LF, then the link records built index by index. */
  function GraphLinks<T>(links: seq<T>, acc: LinkAccess<T>): (r: seq<GraphLink>)
    ensures |r| == |links|
    ensures forall i :: 0 <= i < |r| ==> !r[i].source.Wrapper? && !r[i].target.Wrapper? && !r[i].length.Wrapper?
  {
    var sources := Column(links, acc.linkSource);
    var targets := Column(links, acc.linkTarget);
    var lengths := Column(links, acc.linkStrength);
    seq(|links|, i requires 0 <= i < |links| => GraphLink(sources[i], targets[i], lengths[i]))
  }

  /** The i-th record is made from the i-th input alone, with its
      identifiers interned; so mapping a concatenation maps each part. */
  lemma GraphNodesPointwise<T>(a: seq<T>, b: seq<T>, acc: NodeAccess<T>)
    ensures forall i :: 0 <= i < |a| ==>
      GraphNodes(a, acc)[i] == GraphNode(Intern(acc.nodeId(a[i])), Intern(acc.nodeGroup(a[i])), acc.nodeTitle(a[i]), Intern(acc.nodeValue(a[i])))
    ensures GraphNodes(a + b, acc) == GraphNodes(a, acc) + GraphNodes(b, acc)
  {
    var ab := a + b;
    forall i | 0 <= i < |ab| ensures GraphNodes(ab, acc)[i] == (GraphNodes(a, acc) + GraphNodes(b, acc))[i] {
      if i < |a| { assert ab[i] == a[i]; } else { assert ab[i] == b[i - |a|]; }
    }
  }

  lemma GraphLinksPointwise<T>(a: seq<T>, b: seq<T>, acc: LinkAccess<T>)
    ensures forall i :: 0 <= i < |a| ==>
      GraphLinks(a, acc)[i] == GraphLink(Intern(acc.linkSource(a[i])), Intern(acc.linkTarget(a[i])), Intern(acc.linkStrength(a[i])))
    ensures GraphLinks(a + b, acc) == GraphLinks(a, acc) + GraphLinks(b, acc)
  {
    var ab := a + b;
    forall i | 0 <= i < |ab| ensures GraphLinks(ab, acc)[i] == (GraphLinks(a, acc) + GraphLinks(b, acc))[i] {
      if i < |a| { assert ab[i] == a[i]; } else { assert ab[i] == b[i - |a|]; }
    }
  }

  /* ---------------------------------------------------------------------
     the colour domain
     --------------------------------------------------------------------- */

  predicate StrictlyIncreasing(xs: seq<int>)
  {
    forall i, j :: 0 <= i < j < |xs| ==> xs[i] < xs[j]
  }

  /** `Array.from(new Set(G))`: the groups without repeats, each where it
      first occurs. */
  function Distinct(xs: seq<int>): (r: seq<int>)
    ensures forall g :: g in r <==> g in xs
    ensures forall i, j :: 0 <= i < j < |r| ==> r[i] != r[j]
  {
    if |xs| == 0 then []
    else
      var front := Distinct(xs[..|xs| - 1]);
      var x := xs[|xs| - 1];
      assert forall g :: g in xs <==> g in xs[..|xs| - 1] || g == x by {
        assert xs == xs[..|xs| - 1] + [x];
      }
      if x in front then front else front + [x]
  }

  /** One step of sorting with `d3.ascending`. */
  function InsertSorted(x: int, xs: seq<int>): (r: seq<int>)
    requires StrictlyIncreasing(xs) && x !in xs
    ensures StrictlyIncreasing(r)
    ensures forall g :: g in r <==> g == x || g in xs
    ensures |r| == |xs| + 1
    ensures r[0] == x || r[0] == xs[0]
  {
    if |xs| == 0 then [x]
    else if x < xs[0] then [x] + xs
    else
      var rest := InsertSorted(x, xs[1..]);
      assert x != xs[0] && (rest[0] == x || rest[0] == xs[1]);
      [xs[0]] + rest
  }

  /** `.sort(d3.ascending)` of a list without repeats. */
  function SortDistinct(xs: seq<int>): (r: seq<int>)
    requires forall i, j :: 0 <= i < j < |xs| ==> xs[i] != xs[j]
    ensures StrictlyIncreasing(r)
    ensures forall g :: g in r <==> g in xs
    ensures |r| == |xs|
  {
    if |xs| == 0 then []
    else
      var front := xs[..|xs| - 1];
      var x := xs[|xs| - 1];
      assert xs == front + [x];
      InsertSorted(x, SortDistinct(front))
  }

  /** The domain of the ordinal colour scale. */
  function ColourDomain(groups: seq<int>): (r: seq<int>)
    ensures StrictlyIncreasing(r)
    ensures forall g :: g in r <==> g in groups
  {
    SortDistinct(Distinct(groups))
  }

  /** Two increasing lists with the same members are the same list. */
  lemma {:induction false} IncreasingUnique(xs: seq<int>, ys: seq<int>)
    requires StrictlyIncreasing(xs) && StrictlyIncreasing(ys)
    requires forall g :: g in xs <==> g in ys
    ensures xs == ys
  {
    assert |xs| == 0 <==> |ys| == 0 by {
      if |xs| > 0 { assert xs[0] in xs; }
      if |ys| > 0 { assert ys[0] in ys; }
    }
    if |xs| > 0 {
      IncreasingHeads(xs, ys);
      IncreasingTails(xs, ys);
      IncreasingUnique(xs[1..], ys[1..]);
      assert xs == [xs[0]] + xs[1..] && ys == [ys[0]] + ys[1..];
    }
  }

  /** Two non-empty increasing lists with the same members start alike: each
      head is the least member. */
  lemma IncreasingHeads(xs: seq<int>, ys: seq<int>)
    requires StrictlyIncreasing(xs) && StrictlyIncreasing(ys)
    requires forall g :: g in xs <==> g in ys
    requires |xs| > 0 && |ys| > 0
    ensures xs[0] == ys[0]
  {
    assert xs[0] in ys && ys[0] in xs;
    var i :| 0 <= i < |ys| && ys[i] == xs[0];
    var j :| 0 <= j < |xs| && xs[j] == ys[0];
  }

  /** ... and without their heads they still have the same members. */
  lemma IncreasingTails(xs: seq<int>, ys: seq<int>)
    requires StrictlyIncreasing(xs) && StrictlyIncreasing(ys)
    requires forall g :: g in xs <==> g in ys
    requires |xs| > 0 && |ys| > 0 && xs[0] == ys[0]
    ensures forall g :: g in xs[1..] <==> g in ys[1..]
  {
    forall g ensures g in xs[1..] <==> g in ys[1..] {
      if g in xs[1..] {
        var i :| 1 <= i < |xs| && xs[i] == g;
        assert g in ys;
        var j :| 0 <= j < |ys| && ys[j] == g;
        assert j != 0;
      }
      if g in ys[1..] {
        var j :| 1 <= j < |ys| && ys[j] == g;
        assert g in xs;
        var i :| 0 <= i < |xs| && xs[i] == g;
        assert i != 0;
      }
    }
  }

  /** The colour domain is the one ascending list of the distinct groups:
      it depends only on which groups occur, not on their order or count. */
  lemma ColourDomainIsSortedGroups(groups: seq<int>, sorted: seq<int>)
    requires StrictlyIncreasing(sorted)
    requires forall g :: g in sorted <==> g in groups
    ensures ColourDomain(groups) == sorted
  {
    IncreasingUnique(ColourDomain(groups), sorted);
  }

  /* ---------------------------------------------------------------------
     node titles
     --------------------------------------------------------------------- */

  function TitleLines(props: seq<(string, string)>): (r: seq<string>)
    ensures |r| == |props|
  {
    seq(|props|, i requires 0 <= i < |props| => props[i].0 + ": " + props[i].1)
  }

  /** The hover title: one `key: value` line per property, in property
      order, joined by newlines. */
  function Title(props: seq<(string, string)>): (r: string)
    ensures |props| == 0 ==> r == ""
    ensures |props| >= 1 ==>
      var last := TitleLines(props)[|props| - 1];
      |last| <= |r| && r[|r| - |last|..] == last
  {
    var lines := TitleLines(props);
    if |props| >= 1 then
      JoinEndsWithLast(lines, "\n");
      Strings.Join(lines, "\n")
    else Strings.Join(lines, "\n")
  }

  /** A join ends with its last part, not with a separator. */
  lemma {:induction false} JoinEndsWithLast(parts: seq<string>, sep: string)
    requires |parts| >= 1
    ensures var r := Strings.Join(parts, sep);
      |parts[|parts| - 1]| <= |r| && r[|r| - |parts[|parts| - 1]|..] == parts[|parts| - 1]
  {
    if |parts| > 1 {
      JoinEndsWithLast(parts[1..], sep);
    }
  }

  /** Reading the title back line by line gives the properties' lines,
      when no key or value holds a newline. */
  lemma TitleSplits(props: seq<(string, string)>)
    requires |props| >= 1
    requires forall i :: 0 <= i < |props| ==> '\n' !in props[i].0 && '\n' !in props[i].1
    ensures Strings.Split(Title(props), '\n') == TitleLines(props)
  {
    var lines := TitleLines(props);
    forall i | 0 <= i < |lines| ensures '\n' !in lines[i] {
      assert lines[i] == props[i].0 + ": " + props[i].1;
    }
    Strings.SplitJoin(lines, '\n');
  }

  /** The title of a flights-page node: name, state and number of flights,
      on three lines. */
  lemma FlightsTitle(name: string, state: string, flights: nat)
    requires '\n' !in name && '\n' !in state
    ensures Strings.Split(Title([("Name", name), ("State", state), ("Flights", Strings.IntToString(flights))]), '\n')
      == ["Name: " + name, "State: " + state, "Flights: " + Strings.IntToString(flights)]
  {
    var digits := Strings.IntToString(flights);
    assert Strings.AllDigits(digits);
    var props := [("Name", name), ("State", state), ("Flights", digits)];
    var lines := TitleLines(props);
    assert lines[0] == "Name: " + name && lines[1] == "State: " + state && lines[2] == "Flights: " + digits;
    assert lines == ["Name: " + name, "State: " + state, "Flights: " + digits];
    TitleSplits(props);
  }

  /* ---------------------------------------------------------------------
     dragging
     --------------------------------------------------------------------- */

  /** `validate(x, a, b)`: raise `x` to `a`, then lower it to `b`. */
  function Validate(x: real, a: real, b: real): (r: real)
    ensures a <= b ==> a <= r <= b
    ensures a <= x <= b ==> r == x
    ensures b < a ==> r == b
  {
    var raised := if x < a then a else x;
    if raised > b then b else raised
  }

  /** `validate` is the page's `clamp`, `Math.min(Math.max(x, a), b)`, on
      every input, including an empty range. */
  lemma ValidateIsClamp(x: real, a: real, b: real)
    ensures Validate(x, a, b) == ScatterPage.Clamp(x, a, b)
  {
  }

  /** The simulated position of a node and its pin (`fx`, `fy`; `None` is
      `null`). */
  datatype SimNode = SimNode(x: real, y: real, fx: Option<real>, fy: Option<real>)

  /** A drag event on a node; `active` is the number of other gestures in
      progress. */
  datatype DragEvent = Start(active: nat) | Drag(ex: real, ey: real) | End(active: nat)

  /** The dragged node and the simulation's `alphaTarget`. */
  datatype DragState = DragState(node: SimNode, alphaTarget: real)

  const RestartAlpha: real := 0.3

  /** The handlers `dragstarted`, `dragged` and `dragended`. */
  function OnDrag(s: DragState, e: DragEvent, width: real, height: real): (r: DragState)
    ensures r.node.x == s.node.x && r.node.y == s.node.y
    ensures e.Start? ==> r.node.fx == Some(s.node.x) && r.node.fy == Some(s.node.y)
    ensures e.Drag? && 0.0 <= width && 0.0 <= height ==>
      && r.node.fx.Some? && 0.0 <= r.node.fx.value <= width
      && r.node.fy.Some? && 0.0 <= r.node.fy.value <= height
    ensures e.Drag? && 0.0 <= e.ex <= width && 0.0 <= e.ey <= height ==> r.node.fx == Some(e.ex) && r.node.fy == Some(e.ey)
    ensures e.End? ==> r.node.fx.None? && r.node.fy.None?
    ensures r.alphaTarget != s.alphaTarget ==> (e.Start? || e.End?) && e.active == 0
    ensures (e.Start? || e.End?) && e.active == 0 ==> r.alphaTarget == (if e.Start? then RestartAlpha else 0.0)
  {
    match e
    case Start(active) =>
      DragState(s.node.(fx := Some(s.node.x), fy := Some(s.node.y)),
                if active == 0 then RestartAlpha else s.alphaTarget)
    case Drag(ex, ey) =>
      DragState(s.node.(fx := Some(Validate(ex, 0.0, width)), fy := Some(Validate(ey, 0.0, height))), s.alphaTarget)
    case End(active) =>
      DragState(s.node.(fx := None, fy := None), if active == 0 then 0.0 else s.alphaTarget)
  }

  /** The state after a run of drag events. */
  function Gesture(s: DragState, events: seq<DragEvent>, width: real, height: real): DragState
  {
    if |events| == 0 then s
    else OnDrag(Gesture(s, events[..|events| - 1], width, height), events[|events| - 1], width, height)
  }

  /** Whatever happened before, a node is pinned exactly when the last drag
      event was not its end; a pin set by a drag lies inside the canvas; and
      the handlers never move the node itself. */
  lemma {:induction false} GesturePins(s: DragState, events: seq<DragEvent>, width: real, height: real)
    requires |events| >= 1
    requires 0.0 <= width && 0.0 <= height
    ensures var r := Gesture(s, events, width, height);
      && r.node.x == s.node.x && r.node.y == s.node.y
      && (r.node.fx.Some? <==> !events[|events| - 1].End?)
      && (r.node.fy.Some? <==> !events[|events| - 1].End?)
      && (events[|events| - 1].Drag? ==> 0.0 <= r.node.fx.value <= width && 0.0 <= r.node.fy.value <= height)
      && (events[|events| - 1].Start? ==> r.node.fx == Some(s.node.x) && r.node.fy == Some(s.node.y))
  {
    if |events| > 1 {
      GesturePins(s, events[..|events| - 1], width, height);
    }
  }
}
