/** What the tables hold, said of the geometry itself: its coordinates in
    traversal order, and the number of figures and shapes it needs. */
module GeoCounts {
  import opened Common
  import opened GeoTypes
  import opened GeoLayout
  import opened GeoLayoutProofs

  function Concat(lines: seq<seq<Coord>>): seq<Coord> {
    if lines == [] then [] else lines[0] + Concat(lines[1..])
  }

  function PolyPoints(p: Poly): seq<Coord> {
    p.exterior + Concat(p.interiors)
  }

  function PolysPoints(ps: seq<Poly>): seq<Coord> {
    if ps == [] then [] else PolyPoints(ps[0]) + PolysPoints(ps[1..])
  }

  /** Every coordinate of a geometry, in traversal order. */
  function AllPoints(g: Geometry): seq<Coord>
    decreases g, 0
  {
    match g
    case Point(at) => [at]
    case Line(start, end) => [start, end]
    case LineString(line) => line
    case Polygon(p) => PolyPoints(p)
    case MultiPoint(ps) => ps
    case MultiLineString(ls) => Concat(ls)
    case MultiPolygon(ps) => PolysPoints(ps)
    case GeometryCollection(ms) => MembersPoints(ms)
    case Rect(outline) => outline
    case Triangle(outline) => outline
  }

  function MembersPoints(ms: seq<Geometry>): seq<Coord>
    decreases ms, 1
  {
    if ms == [] then [] else AllPoints(ms[0]) + MembersPoints(ms[1..])
  }

  function LineFigures(line: seq<Coord>): nat {
    if line == [] then 0 else 1
  }

  function LinesFigures(ls: seq<seq<Coord>>): nat {
    if ls == [] then 0 else LineFigures(ls[0]) + LinesFigures(ls[1..])
  }

  function PolyFigures(p: Poly): nat {
    var holes := |NonEmpty(p.interiors)|;
    if p.exterior == [] && holes == 0 then 0 else 1 + holes
  }

  function PolysFigures(ps: seq<Poly>): nat {
    if ps == [] then 0 else PolyFigures(ps[0]) + PolysFigures(ps[1..])
  }

  /** One figure per point, per non-empty line and per ring. */
  function FigureCount(g: Geometry): nat
    decreases g, 0
  {
    match g
    case Point(_) => 1
    case Line(_, _) => 1
    case LineString(line) => LineFigures(line)
    case Polygon(p) => PolyFigures(p)
    case MultiPoint(ps) => |ps|
    case MultiLineString(ls) => LinesFigures(ls)
    case MultiPolygon(ps) => PolysFigures(ps)
    case GeometryCollection(ms) => MembersFigures(ms)
    case Rect(outline) => LineFigures(outline)
    case Triangle(outline) => LineFigures(outline)
  }

  function MembersFigures(ms: seq<Geometry>): nat
    decreases ms, 1
  {
    if ms == [] then 0 else FigureCount(ms[0]) + MembersFigures(ms[1..])
  }

  /** One shape per geometry and per part of a multi-geometry. */
  function ShapeCount(g: Geometry): nat
    decreases g, 0
  {
    match g
    case MultiPoint(ps) => 1 + |ps|
    case MultiLineString(ls) => 1 + |ls|
    case MultiPolygon(ps) => 1 + |ps|
    case GeometryCollection(ms) => 1 + MembersShapes(ms)
    case _ => 1
  }

  function MembersShapes(ms: seq<Geometry>): nat
    decreases ms, 1
  {
    if ms == [] then 0 else ShapeCount(ms[0]) + MembersShapes(ms[1..])
  }

  /** No count, offset or index of `g` needs more than its 32 bits. */
  predicate FitsFormat(g: Geometry) {
    && |AllPoints(g)| < 0x1_0000_0000
    && FigureCount(g) <= 0x8000_0000
    && ShapeCount(g) <= 0x8000_0000
  }

  // ----- The same three measures of what a call appends

  predicate Adds(t: Tables, t2: Tables, points: seq<Coord>, figures: nat, shapes: nat) {
    && t2.points == t.points + points
    && |t2.figures| == |t.figures| + figures
    && |t2.shapes| == |t.shapes| + shapes
  }

  lemma {:induction false} AddsTransitive(
    t: Tables, t1: Tables, t2: Tables, p1: seq<Coord>, f1: nat, s1: nat, p2: seq<Coord>, f2: nat, s2: nat)
    requires Adds(t, t1, p1, f1, s1) && Adds(t1, t2, p2, f2, s2)
    ensures Adds(t, t2, p1 + p2, f1 + f2, s1 + s2)
  {}

  lemma {:induction false} LeafAdds(ty: byte, runs: seq<PointRun>, parent: i32, t: Tables)
    ensures Adds(t, PushNode(Leaf(ty, runs), parent, t), PointsOf(runs), |runs|, 1)
  {
    PushRunsSum(runs, t);
    if runs != [] {
      FiguresOfRun(runs, |t.points|, 0);
    }
  }

  lemma {:induction false} PointAdds(c: Coord, parent: i32, t: Tables)
    ensures Adds(t, PushNode(PointNode(c), parent, t), [c], 1, 1)
  {
    LeafAdds(SHAPE_POINT, [PointRun(FIGURE_STROKE, [c])], parent, t);
    assert PointsOf([PointRun(FIGURE_STROKE, [c])]) == [c];
  }

  lemma {:induction false} LineAdds(line: seq<Coord>, parent: i32, t: Tables)
    ensures Adds(t, PushNode(LineNode(line), parent, t), line, LineFigures(line), 1)
  {
    LeafAdds(SHAPE_LINESTRING, StrokeRuns(line), parent, t);
    assert PointsOf(StrokeRuns(line)) == line;
  }

  lemma {:induction false} HolePoints(rings: seq<Ring>)
    ensures PointsOf(HoleRuns(NonEmpty(rings))) == Concat(rings)
  {
    if rings != [] {
      HolePoints(rings[1..]);
      var rest := NonEmpty(rings[1..]);
      if rings[0] == [] {
        assert [] + Concat(rings[1..]) == Concat(rings[1..]);
      } else {
        assert HoleRuns([rings[0]] + rest) == [PointRun(FIGURE_INTERIOR_RING, rings[0])] + HoleRuns(rest);
      }
    }
  }

  lemma {:induction false} PolygonAdds(p: Poly, parent: i32, t: Tables)
    ensures Adds(t, PushNode(PolygonNode(p), parent, t), PolyPoints(p), PolyFigures(p), 1)
  {
    var holes := HoleRuns(NonEmpty(p.interiors));
    LeafAdds(SHAPE_POLYGON, PolygonRuns(p), parent, t);
    HolePoints(p.interiors);
    if PolygonRuns(p) == [] {
      assert PolyPoints(p) == [];
    } else {
      assert PolygonRuns(p)[1..] == holes;
    }
  }

  lemma {:induction false} PointsAdd(ps: seq<Coord>, parent: i32, t: Tables)
    ensures Adds(t, PushNodes(PointNodes(ps), parent, t), ps, |ps|, |ps|)
  {
    var nodes := PointNodes(ps);
    if ps != [] {
      var t1 := PushNode(nodes[0], parent, t);
      PointAdds(ps[0], parent, t);
      PointsAdd(ps[1..], parent, t1);
      assert nodes[1..] == PointNodes(ps[1..]);
      AddsTransitive(t, t1, PushNodes(nodes[1..], parent, t1), [ps[0]], 1, 1, ps[1..], |ps[1..]|, |ps[1..]|);
      assert [ps[0]] + ps[1..] == ps;
    }
  }

  lemma {:induction false} LinesAdd(ls: seq<seq<Coord>>, parent: i32, t: Tables)
    ensures Adds(t, PushNodes(LineNodes(ls), parent, t),
                 Concat(ls), LinesFigures(ls), |ls|)
  {
    var nodes := LineNodes(ls);
    if ls != [] {
      var t1 := PushNode(nodes[0], parent, t);
      LineAdds(ls[0], parent, t);
      LinesAdd(ls[1..], parent, t1);
      assert nodes[1..] == LineNodes(ls[1..]);
      AddsTransitive(t, t1, PushNodes(nodes[1..], parent, t1),
                     ls[0], LineFigures(ls[0]), 1, Concat(ls[1..]), LinesFigures(ls[1..]), |ls[1..]|);
    }
  }

  lemma {:induction false} PolygonsAdd(ps: seq<Poly>, parent: i32, t: Tables)
    ensures Adds(t, PushNodes(PolygonNodes(ps), parent, t),
                 PolysPoints(ps), PolysFigures(ps), |ps|)
  {
    var nodes := PolygonNodes(ps);
    if ps != [] {
      var t1 := PushNode(nodes[0], parent, t);
      PolygonAdds(ps[0], parent, t);
      PolygonsAdd(ps[1..], parent, t1);
      assert nodes[1..] == PolygonNodes(ps[1..]);
      AddsTransitive(t, t1, PushNodes(nodes[1..], parent, t1),
                     PolyPoints(ps[0]), PolyFigures(ps[0]), 1, PolysPoints(ps[1..]), PolysFigures(ps[1..]), |ps[1..]|);
    }
  }

  /** Encoding loses and invents no coordinate: the point table grows by exactly
      the coordinates of the geometry, in order, and the other two by its counts. */
  lemma {:induction false} GeometryAdds(g: Geometry, parent: i32, t: Tables)
    ensures Adds(t, PushNode(Plan(g), parent, t), AllPoints(g), FigureCount(g), ShapeCount(g))
    decreases g, 0
  {
    match g
    case Point(at) => PointAdds(at, parent, t);
    case Line(start, end) => LineAdds([start, end], parent, t);
    case LineString(line) => LineAdds(line, parent, t);
    case Polygon(p) => PolygonAdds(p, parent, t);
    case Rect(outline) => OutlineAdds(outline, parent, t);
    case Triangle(outline) => OutlineAdds(outline, parent, t);
    case MultiPoint(ps) => PointsAdd(ps, AsI32(|t.shapes|), Opened(Plan(g), parent, t));
    case MultiLineString(ls) => LinesAdd(ls, AsI32(|t.shapes|), Opened(Plan(g), parent, t));
    case MultiPolygon(ps) => PolygonsAdd(ps, AsI32(|t.shapes|), Opened(Plan(g), parent, t));
    case GeometryCollection(ms) => MembersAdd(ms, AsI32(|t.shapes|), Opened(Plan(g), parent, t));
  }

  /** The tables once a branch has pushed its own shape. */
  function Opened(node: Node, parent: i32, t: Tables): Tables
    requires node.Branch?
  {
    PushShape(parent, if node.children == [] then -1 else AsI32(|t.figures|), node.shapeType, t)
  }

  lemma {:induction false} OutlineAdds(outline: Ring, parent: i32, t: Tables)
    ensures Adds(t, PushNode(PolygonNode(Poly(outline, [])), parent, t), outline, LineFigures(outline), 1)
  {
    PolygonAdds(Poly(outline, []), parent, t);
    assert PolyPoints(Poly(outline, [])) == outline;
  }

  lemma {:induction false} MembersAdd(ms: seq<Geometry>, parent: i32, t: Tables)
    ensures Adds(t, PushNodes(Plans(ms), parent, t),
                 MembersPoints(ms), MembersFigures(ms), MembersShapes(ms))
    decreases ms, 1
  {
    var nodes := Plans(ms);
    if ms != [] {
      var t1 := PushNode(nodes[0], parent, t);
      GeometryAdds(ms[0], parent, t);
      MembersAdd(ms[1..], parent, t1);
      assert nodes[1..] == Plans(ms[1..]);
      AddsTransitive(t, t1, PushNodes(nodes[1..], parent, t1),
                     AllPoints(ms[0]), FigureCount(ms[0]), ShapeCount(ms[0]),
                     MembersPoints(ms[1..]), MembersFigures(ms[1..]), MembersShapes(ms[1..]));
    }
  }
}
