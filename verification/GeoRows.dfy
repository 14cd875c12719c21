/** The figure and shape tables that a geometry must become, said of the geometry
    itself, with the type codes and attributes of the format written out. */
module GeoRows {
  import opened Common
  import opened GeoTypes
  import opened GeoLayout
  import opened GeoLayoutProofs
  import opened GeoCounts

  /** A row of the figure table: the kind of run, and the points before it. */
  datatype FigureRow = FigureRow(attribute: int, pointOffset: int)

  /** A row of the shape table. */
  datatype ShapeRow = ShapeRow(parent: int, figureOffset: int, kind: int)

  datatype Rows = Rows(figures: seq<FigureRow>, shapes: seq<ShapeRow>)

  function Follow(a: Rows, b: Rows): Rows {
    Rows(a.figures + b.figures, a.shapes + b.shapes)
  }

  // ----- The rows of a geometry, after `before` figures and `base` points

  function OnePointRows(parent: int, before: nat, base: nat): Rows {
    Rows([FigureRow(1, base)], [ShapeRow(parent, before, 1)])
  }

  function LineRows(line: seq<Coord>, parent: int, before: nat, base: nat): Rows {
    if line == [] then Rows([], [ShapeRow(parent, -1, 2)])
    else Rows([FigureRow(1, base)], [ShapeRow(parent, before, 2)])
  }

  function HoleRows(rings: seq<Ring>, base: nat): seq<FigureRow> {
    if rings == [] then []
    else if rings[0] == [] then HoleRows(rings[1..], base)
    else [FigureRow(0, base)] + HoleRows(rings[1..], base + |rings[0]|)
  }

  function PolygonRows(p: Poly, parent: int, before: nat, base: nat): Rows {
    if p.exterior == [] && forall i :: 0 <= i < |p.interiors| ==> p.interiors[i] == []
    then Rows([], [ShapeRow(parent, -1, 3)])
    else Rows([FigureRow(2, base)] + HoleRows(p.interiors, base + |p.exterior|), [ShapeRow(parent, before, 3)])
  }

  function PlacesRows(ps: seq<Coord>, parent: int, before: nat, base: nat): Rows {
    if ps == [] then Rows([], [])
    else Follow(OnePointRows(parent, before, base), PlacesRows(ps[1..], parent, before + 1, base + 1))
  }

  function LinesRows(ls: seq<seq<Coord>>, parent: int, before: nat, base: nat): Rows {
    if ls == [] then Rows([], [])
    else
      var first := LineRows(ls[0], parent, before, base);
      Follow(first, LinesRows(ls[1..], parent, before + |first.figures|, base + |ls[0]|))
  }

  function PolygonsRows(ps: seq<Poly>, parent: int, before: nat, base: nat): Rows {
    if ps == [] then Rows([], [])
    else
      var first := PolygonRows(ps[0], parent, before, base);
      Follow(first, PolygonsRows(ps[1..], parent, before + |first.figures|, base + |PolyPoints(ps[0])|))
  }

  function MembersRows(ms: seq<Geometry>, parent: int, at: nat, before: nat, base: nat): Rows
    decreases ms, 1
  {
    if ms == [] then Rows([], [])
    else
      var first := RowsOf(ms[0], parent, at, before, base);
      var (shapes, figures, points) := (|first.shapes|, |first.figures|, |AllPoints(ms[0])|);
      Follow(first, MembersRows(ms[1..], parent, at + shapes, before + figures, base + points))
  }

  /** The shape of a geometry with parts: no figure offset if it has none, and
      otherwise the number of figures before its first, as 32 signed bits. */
  function WholeRow(parts: nat, parent: int, before: nat, kind: int): Rows {
    var offset := if parts == 0 then -1 else if before < 0x8000_0000 then before else before - 0x1_0000_0000;
    Rows([], [ShapeRow(parent, offset, kind)])
  }

  /** The rows of a geometry that becomes shape `at`. */
  function RowsOf(g: Geometry, parent: int, at: nat, before: nat, base: nat): Rows
    decreases g, 0
  {
    match g
    case Point(_) => OnePointRows(parent, before, base)
    case Line(start, end) => LineRows([start, end], parent, before, base)
    case LineString(line) => LineRows(line, parent, before, base)
    case Polygon(p) => PolygonRows(p, parent, before, base)
    case MultiPoint(ps) => Follow(WholeRow(|ps|, parent, before, 4), PlacesRows(ps, at, before, base))
    case MultiLineString(ls) => Follow(WholeRow(|ls|, parent, before, 5), LinesRows(ls, at, before, base))
    case MultiPolygon(ps) => Follow(WholeRow(|ps|, parent, before, 6), PolygonsRows(ps, at, before, base))
    case GeometryCollection(ms) => Follow(WholeRow(|ms|, parent, before, 7), MembersRows(ms, at, at + 1, before, base))
    case Rect(outline) => PolygonRows(Poly(outline, []), parent, before, base)
    case Triangle(outline) => PolygonRows(Poly(outline, []), parent, before, base)
  }

  // ----- The rows of the tables

  function FigureEntries(figures: seq<Figure>): (rows: seq<FigureRow>)
    ensures |rows| == |figures|
    ensures forall i :: 0 <= i < |rows| ==> rows[i] == FigureRow(figures[i].attribute, figures[i].pointOffset)
  {
    seq(|figures|, i requires 0 <= i < |figures| => FigureRow(figures[i].attribute, figures[i].pointOffset))
  }

  function ShapeEntries(shapes: seq<Shape>): (rows: seq<ShapeRow>)
    ensures |rows| == |shapes|
    ensures forall i :: 0 <= i < |rows| ==>
              rows[i] == ShapeRow(shapes[i].parent, shapes[i].figureOffset, shapes[i].shapeType)
  {
    seq(|shapes|, i requires 0 <= i < |shapes| =>
      ShapeRow(shapes[i].parent, shapes[i].figureOffset, shapes[i].shapeType))
  }

  /** The tables `t2` hold the rows of `t` and then these. */
  predicate Wrote(t: Tables, t2: Tables, rows: Rows) {
    && FigureEntries(t2.figures) == FigureEntries(t.figures) + rows.figures
    && ShapeEntries(t2.shapes) == ShapeEntries(t.shapes) + rows.shapes
  }

  lemma {:induction false} WroteBoth(t: Tables, t1: Tables, t2: Tables, a: Rows, b: Rows)
    requires Wrote(t, t1, a) && Wrote(t1, t2, b)
    ensures Wrote(t, t2, Follow(a, b))
  {
    Regroup(FigureEntries(t.figures), a.figures, b.figures);
    Regroup(ShapeEntries(t.shapes), a.shapes, b.shapes);
  }

  // ----- Leaves

  function RunRows(runs: seq<PointRun>, base: nat): seq<FigureRow> {
    if runs == [] then []
    else [FigureRow(runs[0].attribute, base)] + RunRows(runs[1..], base + |runs[0].coords|)
  }

  lemma {:induction false} FiguresOfRows(runs: seq<PointRun>, base: nat)
    requires base + |PointsOf(runs)| < 0x1_0000_0000
    ensures FigureEntries(FiguresOf(runs, base)) == RunRows(runs, base)
  {
    if runs != [] {
      FiguresOfRows(runs[1..], base + |runs[0].coords|);
      assert AsU32(base) == base;
    }
  }

  lemma {:induction false} LeafWrites(ty: byte, runs: seq<PointRun>, parent: i32, t: Tables)
    requires Fits(PushNode(Leaf(ty, runs), parent, t))
    ensures var row := ShapeRow(parent, if runs == [] then -1 else |t.figures|, ty);
            Wrote(t, PushNode(Leaf(ty, runs), parent, t), Rows(RunRows(runs, |t.points|), [row]))
  {
    var added := FiguresOf(runs, |t.points|);
    PushRunsSum(runs, t);
    FiguresOfRows(runs, |t.points|);
    if runs != [] {
      FiguresOfRun(runs, |t.points|, 0);
      assert AsI32(|t.figures|) == |t.figures|;
    }
    assert FigureEntries(t.figures + added) == FigureEntries(t.figures) + FigureEntries(added);
  }

  lemma {:induction false} PointWrites(c: Coord, parent: i32, t: Tables)
    requires Fits(PushNode(PointNode(c), parent, t))
    ensures Wrote(t, PushNode(PointNode(c), parent, t), OnePointRows(parent, |t.figures|, |t.points|))
  {
    var runs := [PointRun(FIGURE_STROKE, [c])];
    LeafWrites(SHAPE_POINT, runs, parent, t);
    assert RunRows(runs[1..], |t.points| + 1) == [];
  }

  lemma {:induction false} LineWrites(line: seq<Coord>, parent: i32, t: Tables)
    requires Fits(PushNode(LineNode(line), parent, t))
    ensures Wrote(t, PushNode(LineNode(line), parent, t), LineRows(line, parent, |t.figures|, |t.points|))
  {
    var runs := StrokeRuns(line);
    LeafWrites(SHAPE_LINESTRING, runs, parent, t);
    if line != [] {
      assert RunRows(runs[1..], |t.points| + |line|) == [];
    }
  }

  lemma {:induction false} HoleRunRows(rings: seq<Ring>, base: nat)
    ensures RunRows(HoleRuns(NonEmpty(rings)), base) == HoleRows(rings, base)
  {
    if rings != [] {
      var rest := NonEmpty(rings[1..]);
      if rings[0] == [] {
        HoleRunRows(rings[1..], base);
      } else {
        HoleRunRows(rings[1..], base + |rings[0]|);
        assert HoleRuns([rings[0]] + rest) == [PointRun(FIGURE_INTERIOR_RING, rings[0])] + HoleRuns(rest);
      }
    }
  }

  lemma {:induction false} PolygonWrites(p: Poly, parent: i32, t: Tables)
    requires Fits(PushNode(PolygonNode(p), parent, t))
    ensures Wrote(t, PushNode(PolygonNode(p), parent, t), PolygonRows(p, parent, |t.figures|, |t.points|))
  {
    var runs := PolygonRuns(p);
    LeafWrites(SHAPE_POLYGON, runs, parent, t);
    AllHolesEmpty(p.interiors);
    if runs != [] {
      HoleRunRows(p.interiors, |t.points| + |p.exterior|);
      assert runs[1..] == HoleRuns(NonEmpty(p.interiors));
    }
  }

  lemma {:induction false} AllHolesEmpty(rings: seq<Ring>)
    ensures NonEmpty(rings) == [] <==> forall i :: 0 <= i < |rings| ==> rings[i] == []
  {
    if rings != [] {
      AllHolesEmpty(rings[1..]);
      assert forall i :: 1 <= i < |rings| ==> rings[i] == rings[1..][i - 1];
    }
  }

  // ----- Parts

  lemma {:induction false} FirstFits(nodes: seq<Node>, parent: i32, t: Tables)
    requires nodes != [] && Fits(PushNodes(nodes, parent, t))
    ensures Fits(PushNode(nodes[0], parent, t))
  {
    PushNodesPrefix(nodes[1..], parent, PushNode(nodes[0], parent, t));
  }

  lemma {:induction false} PlacesWrite(ps: seq<Coord>, parent: i32, t: Tables)
    requires Fits(PushNodes(PointNodes(ps), parent, t))
    ensures Wrote(t, PushNodes(PointNodes(ps), parent, t), PlacesRows(ps, parent, |t.figures|, |t.points|))
  {
    if ps != [] {
      var nodes := PointNodes(ps);
      var t1 := PushNode(nodes[0], parent, t);
      FirstFits(nodes, parent, t);
      PointWrites(ps[0], parent, t);
      PointAdds(ps[0], parent, t);
      assert nodes[1..] == PointNodes(ps[1..]);
      PlacesWrite(ps[1..], parent, t1);
      WroteBoth(t, t1, PushNodes(nodes[1..], parent, t1), OnePointRows(parent, |t.figures|, |t.points|),
                PlacesRows(ps[1..], parent, |t1.figures|, |t1.points|));
    }
  }

  lemma {:induction false} LinesWrite(ls: seq<seq<Coord>>, parent: i32, t: Tables)
    requires Fits(PushNodes(LineNodes(ls), parent, t))
    ensures Wrote(t, PushNodes(LineNodes(ls), parent, t), LinesRows(ls, parent, |t.figures|, |t.points|))
  {
    if ls != [] {
      var nodes := LineNodes(ls);
      var t1 := PushNode(nodes[0], parent, t);
      FirstFits(nodes, parent, t);
      LineWrites(ls[0], parent, t);
      LineAdds(ls[0], parent, t);
      assert nodes[1..] == LineNodes(ls[1..]);
      LinesWrite(ls[1..], parent, t1);
      WroteBoth(t, t1, PushNodes(nodes[1..], parent, t1), LineRows(ls[0], parent, |t.figures|, |t.points|),
                LinesRows(ls[1..], parent, |t1.figures|, |t1.points|));
    }
  }

  lemma {:induction false} PolygonsWrite(ps: seq<Poly>, parent: i32, t: Tables)
    requires Fits(PushNodes(PolygonNodes(ps), parent, t))
    ensures Wrote(t, PushNodes(PolygonNodes(ps), parent, t), PolygonsRows(ps, parent, |t.figures|, |t.points|))
  {
    if ps != [] {
      var nodes := PolygonNodes(ps);
      var t1 := PushNode(nodes[0], parent, t);
      FirstFits(nodes, parent, t);
      PolygonWrites(ps[0], parent, t);
      PolygonAdds(ps[0], parent, t);
      assert nodes[1..] == PolygonNodes(ps[1..]);
      PolygonsWrite(ps[1..], parent, t1);
      CountsAgree(t, t1, PolygonRows(ps[0], parent, |t.figures|, |t.points|));
      WroteBoth(t, t1, PushNodes(nodes[1..], parent, t1), PolygonRows(ps[0], parent, |t.figures|, |t.points|),
                PolygonsRows(ps[1..], parent, |t1.figures|, |t1.points|));
    }
  }

  lemma {:induction false} CountsAgree(t: Tables, t2: Tables, rows: Rows)
    requires Wrote(t, t2, rows)
    ensures |t2.figures| == |t.figures| + |rows.figures| && |t2.shapes| == |t.shapes| + |rows.shapes|
  {
    assert |FigureEntries(t2.figures)| == |FigureEntries(t.figures)| + |rows.figures|;
    assert |ShapeEntries(t2.shapes)| == |ShapeEntries(t.shapes)| + |rows.shapes|;
  }

  // ----- Whole geometries

  /** Encoding a geometry at any place in any tables writes exactly its rows. */
  lemma {:induction false} GeometryWrites(g: Geometry, parent: i32, t: Tables)
    requires Fits(PushNode(Plan(g), parent, t))
    ensures Wrote(t, PushNode(Plan(g), parent, t), RowsOf(g, parent, |t.shapes|, |t.figures|, |t.points|))
    decreases g, 0
  {
    match g
    case Point(c) => PointWrites(c, parent, t);
    case Line(start, end) => LineWrites([start, end], parent, t);
    case LineString(line) => LineWrites(line, parent, t);
    case Polygon(p) => PolygonWrites(p, parent, t);
    case Rect(outline) => PolygonWrites(Poly(outline, []), parent, t);
    case Triangle(outline) => PolygonWrites(Poly(outline, []), parent, t);
    case MultiPoint(ps) =>
      var t1 := WholeWrites(Plan(g), parent, t);
      PlacesWrite(ps, |t.shapes|, t1);
      WroteBoth(t, t1, PushNode(Plan(g), parent, t), WholeRow(|ps|, parent, |t.figures|, 4),
                PlacesRows(ps, |t.shapes|, |t.figures|, |t.points|));
    case MultiLineString(ls) =>
      var t1 := WholeWrites(Plan(g), parent, t);
      LinesWrite(ls, |t.shapes|, t1);
      WroteBoth(t, t1, PushNode(Plan(g), parent, t), WholeRow(|ls|, parent, |t.figures|, 5),
                LinesRows(ls, |t.shapes|, |t.figures|, |t.points|));
    case MultiPolygon(ps) =>
      var t1 := WholeWrites(Plan(g), parent, t);
      PolygonsWrite(ps, |t.shapes|, t1);
      WroteBoth(t, t1, PushNode(Plan(g), parent, t), WholeRow(|ps|, parent, |t.figures|, 6),
                PolygonsRows(ps, |t.shapes|, |t.figures|, |t.points|));
    case GeometryCollection(ms) =>
      var t1 := WholeWrites(Plan(g), parent, t);
      MembersWrite(ms, |t.shapes|, t1);
      WroteBoth(t, t1, PushNode(Plan(g), parent, t), WholeRow(|ms|, parent, |t.figures|, 7),
                MembersRows(ms, |t.shapes|, |t.shapes| + 1, |t.figures|, |t.points|));
  }

  /** A geometry with parts writes its own shape first. */
  lemma {:induction false} WholeWrites(node: Node, parent: i32, t: Tables) returns (t1: Tables)
    requires node.Branch? && Fits(PushNode(node, parent, t))
    ensures |t.shapes| < 0x8000_0000 && |t1.shapes| == |t.shapes| + 1
    ensures t1.points == t.points && t1.figures == t.figures
    ensures PushNode(node, parent, t) == PushNodes(node.children, |t.shapes|, t1)
    ensures Wrote(t, t1, WholeRow(|node.children|, parent, |t.figures|, node.shapeType))
  {
    t1 := Opened(node, parent, t);
    PushNodesPrefix(node.children, AsI32(|t.shapes|), t1);
    assert AsI32(|t.shapes|) == |t.shapes|;
  }

  lemma {:induction false} MembersWrite(ms: seq<Geometry>, parent: i32, t: Tables)
    requires Fits(PushNodes(Plans(ms), parent, t))
    ensures Wrote(t, PushNodes(Plans(ms), parent, t), MembersRows(ms, parent, |t.shapes|, |t.figures|, |t.points|))
    decreases ms, 1
  {
    if ms != [] {
      var nodes := Plans(ms);
      var t1 := PushNode(nodes[0], parent, t);
      var first := RowsOf(ms[0], parent, |t.shapes|, |t.figures|, |t.points|);
      FirstFits(nodes, parent, t);
      GeometryWrites(ms[0], parent, t);
      GeometryAdds(ms[0], parent, t);
      CountsAgree(t, t1, first);
      assert nodes[1..] == Plans(ms[1..]);
      MembersWrite(ms[1..], parent, t1);
      WroteBoth(t, t1, PushNodes(nodes[1..], parent, t1), first,
                MembersRows(ms[1..], parent, |t1.shapes|, |t1.figures|, |t1.points|));
    }
  }

  /** The tables of every geometry that fits, row by row: its coordinates in
      order, its figures, and its shapes in preorder. */
  lemma {:induction false} FlattenRows(g: Geometry)
    requires FitsFormat(g)
    ensures Flatten(g).points == AllPoints(g)
    ensures FigureEntries(Flatten(g).figures) == RowsOf(g, -1, 0, 0, 0).figures
    ensures ShapeEntries(Flatten(g).shapes) == RowsOf(g, -1, 0, 0, 0).shapes
  {
    GeometryAdds(g, -1, EMPTY_TABLES);
    assert EMPTY_TABLES.points + AllPoints(g) == AllPoints(g);
    GeometryWrites(g, -1, EMPTY_TABLES);
    assert FigureEntries([]) == [] && ShapeEntries([]) == [];
  }
}
