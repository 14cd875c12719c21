/** The codec as the driver runs it: a builder that pushes onto three vectors,
    a reader that advances over a payload, and loops that rebuild a geometry. */
module GeoWire {
  import opened Common
  import opened GeoTypes
  import opened GeoLayout
  import opened GeoBuild
  import opened GeoRoundTrip
  import opened GeoBytes
  import opened GeoCodec

  // ----- Encoding

  /** The three vectors that the `encode_*` functions push onto. */
  class TableBuilder {
    var points: seq<Coord>
    var figures: seq<Figure>
    var shapes: seq<Shape>

    constructor ()
      ensures Value() == EMPTY_TABLES
    {
      points, figures, shapes := [], [], [];
    }

    ghost function Value(): Tables
      reads this
    {
      Tables(points, figures, shapes)
    }

    method PushNewShape(parent: i32, figureOffset: i32, shapeType: byte) returns (index: i32)
      modifies this
      ensures Value() == PushShape(parent, figureOffset, shapeType, old(Value()))
      ensures index == AsI32(|old(shapes)|)
    {
      index := AsI32(|shapes|);
      shapes := shapes + [Shape(parent, figureOffset, shapeType)];
    }

    method PushFigure(attribute: byte, coords: seq<Coord>) returns (figureOffset: i32)
      modifies this
      ensures Value() == PushRun(PointRun(attribute, coords), old(Value()))
      ensures figureOffset == AsI32(|old(figures)|)
    {
      var pointOffset := AsU32(|points|);
      points := points + coords;
      figureOffset := AsI32(|figures|);
      figures := figures + [Figure(attribute, pointOffset)];
    }

    method EncodePoint(place: Coord, parent: i32) returns (index: i32)
      modifies this
      ensures Value() == PushNode(PointNode(place), parent, old(Value()))
      ensures index == AsI32(|old(shapes)|)
    {
      OneRun(PointRun(FIGURE_STROKE, [place]), Value());
      var figureOffset := PushFigure(FIGURE_STROKE, [place]);
      index := PushNewShape(parent, figureOffset, SHAPE_POINT);
    }

    method EncodeLineString(line: seq<Coord>, parent: i32) returns (index: i32)
      modifies this
      ensures Value() == PushNode(LineNode(line), parent, old(Value()))
      ensures index == AsI32(|old(shapes)|)
    {
      if line == [] {
        index := PushNewShape(parent, -1, SHAPE_LINESTRING);
        return;
      }
      OneRun(PointRun(FIGURE_STROKE, line), Value());
      var figureOffset := PushFigure(FIGURE_STROKE, line);
      index := PushNewShape(parent, figureOffset, SHAPE_LINESTRING);
    }

    method EncodePolygon(polygon: Poly, parent: i32) returns (index: i32)
      modifies this
      ensures Value() == PushNode(PolygonNode(polygon), parent, old(Value()))
      ensures index == AsI32(|old(shapes)|)
    {
      NonEmptyRings(polygon.interiors);
      if polygon.exterior == [] && forall i :: 0 <= i < |polygon.interiors| ==> polygon.interiors[i] == [] {
        index := PushNewShape(parent, -1, SHAPE_POLYGON);
        return;
      }
      ghost var before := Value();
      var figureOffset := PushFigure(FIGURE_EXTERIOR_RING, polygon.exterior);
      ghost var openTables := Value();
      ghost var runs := HoleRuns(NonEmpty(polygon.interiors));
      for i := 0 to |polygon.interiors|
        invariant polygon.interiors[0..] == polygon.interiors
        invariant PushRuns(runs, openTables) == PushRuns(HoleRuns(NonEmpty(polygon.interiors[i..])), Value())
        invariant shapes == old(shapes)
      {
        var interior := polygon.interiors[i];
        NextHole(polygon.interiors, i);
        if interior == [] {
          continue;
        }
        var _ := PushFigure(FIGURE_INTERIOR_RING, interior);
      }
      assert polygon.interiors[|polygon.interiors|..] == [];
      assert PolygonRuns(polygon)[1..] == runs;
      index := PushNewShape(parent, figureOffset, SHAPE_POLYGON);
    }

    /** Appends a geometry and returns its shape index. */
    method EncodeGeometry(geometry: Geometry, parent: i32) returns (index: i32)
      modifies this
      ensures Value() == PushNode(Plan(geometry), parent, old(Value()))
      ensures index == AsI32(|old(shapes)|)
      decreases geometry, 0
    {
      match geometry
      case Point(place) => index := EncodePoint(place, parent);
      case Line(start, end) => index := EncodeLineString([start, end], parent);
      case LineString(line) => index := EncodeLineString(line, parent);
      case Polygon(polygon) => index := EncodePolygon(polygon, parent);
      case MultiPoint(places) =>
        if places == [] {
          index := PushNewShape(parent, -1, SHAPE_MULTIPOINT);
          return;
        }
        index := PushNewShape(parent, AsI32(|figures|), SHAPE_MULTIPOINT);
        EncodePlaces(places, index);
      case MultiLineString(lines) =>
        if lines == [] {
          index := PushNewShape(parent, -1, SHAPE_MULTILINESTRING);
          return;
        }
        index := PushNewShape(parent, AsI32(|figures|), SHAPE_MULTILINESTRING);
        EncodeLines(lines, index);
      case MultiPolygon(polygons) =>
        if polygons == [] {
          index := PushNewShape(parent, -1, SHAPE_MULTIPOLYGON);
          return;
        }
        index := PushNewShape(parent, AsI32(|figures|), SHAPE_MULTIPOLYGON);
        EncodePolygons(polygons, index);
      case GeometryCollection(members) =>
        if members == [] {
          index := PushNewShape(parent, -1, SHAPE_GEOMETRYCOLLECTION);
          return;
        }
        index := PushNewShape(parent, AsI32(|figures|), SHAPE_GEOMETRYCOLLECTION);
        EncodeMembers(members, index);
      case Rect(outline) => index := EncodePolygon(Poly(outline, []), parent);
      case Triangle(outline) => index := EncodePolygon(Poly(outline, []), parent);
    }

    method EncodePlaces(places: seq<Coord>, parent: i32)
      modifies this
      ensures Value() == PushNodes(PointNodes(places), parent, old(Value()))
    {
      ghost var before := Value();
      for i := 0 to |places|
        invariant places[0..] == places
        invariant PushNodes(PointNodes(places), parent, before) == PushNodes(PointNodes(places[i..]), parent, Value())
      {
        assert places[i..][1..] == places[i + 1..];
        var _ := EncodePoint(places[i], parent);
      }
      assert places[|places|..] == [];
    }

    method EncodeLines(lines: seq<seq<Coord>>, parent: i32)
      modifies this
      ensures Value() == PushNodes(LineNodes(lines), parent, old(Value()))
    {
      ghost var before := Value();
      for i := 0 to |lines|
        invariant lines[0..] == lines
        invariant PushNodes(LineNodes(lines), parent, before) == PushNodes(LineNodes(lines[i..]), parent, Value())
      {
        assert lines[i..][1..] == lines[i + 1..];
        var _ := EncodeLineString(lines[i], parent);
      }
      assert lines[|lines|..] == [];
    }

    method EncodePolygons(polygons: seq<Poly>, parent: i32)
      modifies this
      ensures Value() == PushNodes(PolygonNodes(polygons), parent, old(Value()))
    {
      ghost var before := Value();
      for i := 0 to |polygons|
        invariant polygons[0..] == polygons
        invariant PushNodes(PolygonNodes(polygons), parent, before) ==
                  PushNodes(PolygonNodes(polygons[i..]), parent, Value())
      {
        assert polygons[i..][1..] == polygons[i + 1..];
        var _ := EncodePolygon(polygons[i], parent);
      }
      assert polygons[|polygons|..] == [];
    }

    method EncodeMembers(members: seq<Geometry>, parent: i32)
      modifies this
      ensures Value() == PushNodes(Plans(members), parent, old(Value()))
      decreases members, 1
    {
      ghost var before := Value();
      for i := 0 to |members|
        invariant members[0..] == members
        invariant PushNodes(Plans(members), parent, before) == PushNodes(Plans(members[i..]), parent, Value())
      {
        assert members[i..][1..] == members[i + 1..];
        var _ := EncodeGeometry(members[i], parent);
      }
      assert members[|members|..] == [];
    }
  }

  lemma {:induction false} OneRun(run: PointRun, t: Tables)
    ensures PushRuns([run], t) == PushRun(run, t)
  {}

  lemma {:induction false} NextHole(rings: seq<Ring>, i: nat)
    requires i < |rings|
    ensures var here, next := HoleRuns(NonEmpty(rings[i..])), HoleRuns(NonEmpty(rings[i + 1..]));
            if rings[i] == [] then here == next
            else here != [] && here[0] == PointRun(FIGURE_INTERIOR_RING, rings[i]) && here[1..] == next
  {}

  method EncodePayload(srid: i32, geometry: Geometry) returns (bytes: seq<byte>)
    ensures bytes == Encode(srid, geometry)
  {
    var tables := new TableBuilder();
    var _ := tables.EncodeGeometry(geometry, -1);
    ghost var t := tables.Value();
    var points := PointRows(tables.points);
    var figures := FigureRows(tables.figures);
    var shapes := ShapeRows(tables.shapes);
    bytes := I32Bytes(srid) + [1] + [PROP_VALID]
             + (U32Bytes(AsU32(|tables.points|)) + points)
             + (U32Bytes(AsU32(|tables.figures|)) + figures)
             + (U32Bytes(AsU32(|tables.shapes|)) + shapes);
    assert tables.Value() == Flatten(geometry);
  }

  method PointRows(points: seq<Coord>) returns (bytes: seq<byte>)
    ensures bytes == CoordsBytes(points)
  {
    bytes := [];
    for i := 0 to |points|
      invariant bytes + CoordsBytes(points[i..]) == CoordsBytes(points)
    {
      assert points[i..][1..] == points[i + 1..];
      var row := points[i].x + points[i].y;
      bytes := bytes + row;
    }
  }

  method FigureRows(figures: seq<Figure>) returns (bytes: seq<byte>)
    ensures bytes == FiguresBytes(figures)
  {
    bytes := [];
    for i := 0 to |figures|
      invariant bytes + FiguresBytes(figures[i..]) == FiguresBytes(figures)
    {
      assert figures[i..][1..] == figures[i + 1..];
      var row := [figures[i].attribute] + U32Bytes(figures[i].pointOffset);
      bytes := bytes + row;
    }
  }

  method ShapeRows(shapes: seq<Shape>) returns (bytes: seq<byte>)
    ensures bytes == ShapesBytes(shapes)
  {
    bytes := [];
    for i := 0 to |shapes|
      invariant bytes + ShapesBytes(shapes[i..]) == ShapesBytes(shapes)
    {
      assert shapes[i..][1..] == shapes[i + 1..];
      var row := I32Bytes(shapes[i].parent) + I32Bytes(shapes[i].figureOffset) + [shapes[i].shapeType];
      bytes := bytes + row;
    }
  }

  // ----- Reading

  /** A read returned `r` and left `rest`, as the reader `p` on bytes says. */
  predicate Answers<T(==)>(r: Decoded<T>, rest: seq<byte>, p: Parsed<T>) {
    if r.Ok? then p == Ok((r.value, rest)) else p == Err(r.error)
  }

  /** A bounds-checked little-endian reader over a payload. */
  class Reader {
    const bytes: seq<byte>
    var position: nat

    constructor (bytes: seq<byte>)
      ensures Valid() && Rest() == bytes
    {
      this.bytes := bytes;
      position := 0;
    }

    ghost predicate Valid()
      reads this
    {
      position <= |bytes|
    }

    ghost function Rest(): seq<byte>
      requires Valid()
      reads this
    {
      bytes[position..]
    }

    method TakeBytes(count: nat) returns (r: Decoded<seq<byte>>)
      requires Valid()
      modifies this
      ensures Valid() && Answers(r, Rest(), Take(old(Rest()), count))
      ensures r.Err? ==> position == old(position)
    {
      var end := position + count;
      if |bytes| < end {
        return Err(Truncated);
      }
      assert bytes[position..end] == Rest()[..count] && bytes[end..] == Rest()[count..];
      r := Ok(bytes[position..end]);
      position := end;
    }

    method U8() returns (r: Decoded<byte>)
      requires Valid()
      modifies this
      ensures Valid() && Answers(r, Rest(), ReadU8(old(Rest())))
    {
      var s :- TakeBytes(1);
      r := Ok(s[0]);
    }

    method I32() returns (r: Decoded<i32>)
      requires Valid()
      modifies this
      ensures Valid() && Answers(r, Rest(), ReadI32(old(Rest())))
    {
      var s :- TakeBytes(4);
      r := Ok(I32Of(s));
    }

    method U32() returns (r: Decoded<u32>)
      requires Valid()
      modifies this
      ensures Valid() && Answers(r, Rest(), ReadU32(old(Rest())))
    {
      var s :- TakeBytes(4);
      r := Ok(U32Of(s));
    }

    method Double() returns (r: Decoded<F64>)
      requires Valid()
      modifies this
      ensures Valid() && Answers(r, Rest(), ReadF64(old(Rest())))
    {
      r := TakeBytes(8);
    }

    method PointRow() returns (r: Decoded<Coord>)
      requires Valid()
      modifies this
      ensures Valid() && Answers(r, Rest(), ReadCoord(old(Rest())))
    {
      var x :- Double();
      var y :- Double();
      r := Ok(Coord(x, y));
    }

    method FigureRow() returns (r: Decoded<Figure>)
      requires Valid()
      modifies this
      ensures Valid() && Answers(r, Rest(), ReadFigure(old(Rest())))
    {
      var attribute :- U8();
      var offset :- U32();
      r := Ok(Figure(attribute, offset));
    }

    method ShapeRow() returns (r: Decoded<Shape>)
      requires Valid()
      modifies this
      ensures Valid() && Answers(r, Rest(), ReadShape(old(Rest())))
    {
      var parent :- I32();
      var offset :- I32();
      var ty :- U8();
      r := Ok(Shape(parent, offset, ty));
    }

    method Points(count: nat) returns (r: Decoded<seq<Coord>>)
      requires Valid()
      modifies this
      ensures Valid() && Answers(r, Rest(), ReadCoords(old(Rest()), count))
    {
      var points: seq<Coord> := [];
      for i := 0 to count
        invariant Valid()
        invariant ReadCoords(old(Rest()), count) == RowsThen(points, ReadCoords(Rest(), count - i))
      {
        var point :- PointRow();
        RowsThenStep(points, point, ReadCoords(Rest(), count - i - 1));
        points := points + [point];
      }
      r := Ok(points);
    }

    method Figures(count: nat) returns (r: Decoded<seq<Figure>>)
      requires Valid()
      modifies this
      ensures Valid() && Answers(r, Rest(), ReadFigures(old(Rest()), count))
    {
      var figures: seq<Figure> := [];
      for i := 0 to count
        invariant Valid()
        invariant ReadFigures(old(Rest()), count) == RowsThen(figures, ReadFigures(Rest(), count - i))
      {
        var figure :- FigureRow();
        RowsThenStep(figures, figure, ReadFigures(Rest(), count - i - 1));
        figures := figures + [figure];
      }
      r := Ok(figures);
    }

    method Shapes(count: nat) returns (r: Decoded<seq<Shape>>)
      requires Valid()
      modifies this
      ensures Valid() && Answers(r, Rest(), ReadShapes(old(Rest()), count))
    {
      var shapes: seq<Shape> := [];
      for i := 0 to count
        invariant Valid()
        invariant ReadShapes(old(Rest()), count) == RowsThen(shapes, ReadShapes(Rest(), count - i))
      {
        var shape :- ShapeRow();
        RowsThenStep(shapes, shape, ReadShapes(Rest(), count - i - 1));
        shapes := shapes + [shape];
      }
      r := Ok(shapes);
    }
  }

  /** The rows read so far, in front of what the rest of the table gives. */
  function RowsThen<T>(rows: seq<T>, p: Parsed<seq<T>>): (q: Parsed<seq<T>>)
    ensures rows == [] ==> q == p
    ensures p.Ok? && p.value.0 == [] ==> q == Ok((rows, p.value.1))
  {
    if p.Ok? then
      assert rows == [] ==> rows + p.value.0 == p.value.0;
      assert p.value.0 == [] ==> rows + p.value.0 == rows;
      Ok((rows + p.value.0, p.value.1))
    else p
  }

  lemma {:induction false} RowsThenStep<T>(rows: seq<T>, row: T, p: Parsed<seq<T>>)
    ensures RowsThen(rows + [row], p) == RowsThen(rows, if p.Ok? then Ok(([row] + p.value.0, p.value.1)) else p)
  {
    if p.Ok? {
      assert rows + [row] + p.value.0 == rows + ([row] + p.value.0);
    }
  }

  method DecodePayload(bytes: seq<byte>) returns (r: Decoded<(i32, Geometry)>)
    ensures r == Decode(bytes)
  {
    var reader := new Reader(bytes);
    var srid :- reader.I32();
    var version :- reader.U8();
    if version != 1 {
      return Err(UnsupportedVersion(version));
    }
    var properties :- reader.U8();
    if Has(properties, PROP_Z) || Has(properties, PROP_M) {
      return Err(HasZOrM);
    }
    var pointCount: u32;
    if Has(properties, PROP_SINGLE_POINT) {
      pointCount := 1;
    } else if Has(properties, PROP_SINGLE_LINE) {
      pointCount := 2;
    } else {
      pointCount :- reader.U32();
    }
    var points :- reader.Points(pointCount);
    var figures, shapes;
    if Has(properties, PROP_SINGLE_POINT) || Has(properties, PROP_SINGLE_LINE) {
      var shapeType := if Has(properties, PROP_SINGLE_POINT) then SHAPE_POINT else SHAPE_LINESTRING;
      figures := [Figure(FIGURE_STROKE, 0)];
      shapes := [Shape(-1, 0, shapeType)];
    } else {
      var figureCount :- reader.U32();
      figures :- reader.Figures(figureCount);
      var shapeCount :- reader.U32();
      shapes :- reader.Shapes(shapeCount);
    }
    var t := Tables(points, figures, shapes);
    assert ReadPayload(bytes) == Ok((Payload(srid, t), reader.Rest()));
    var top := Top(shapes, 0);
    if top.None? {
      return Err(NoTopLevelShape);
    }
    TopIsRooted(shapes, 0);
    var geometry :- BuildShape(top.value, t);
    r := Ok((srid, geometry));
  }

  // ----- Rebuilding

  function PartsThen<T>(parts: seq<T>, rest: Decoded<seq<T>>): (all: Decoded<seq<T>>)
    ensures parts == [] ==> all == rest
    ensures rest == Ok([]) ==> all == Ok(parts)
  {
    if rest.Ok? then
      assert parts == [] ==> parts + rest.value == rest.value;
      assert rest.value == [] ==> parts + rest.value == parts;
      Ok(parts + rest.value)
    else rest
  }

  lemma {:induction false} PartsThenStep<T>(parts: seq<T>, part: T, rest: Decoded<seq<T>>)
    ensures PartsThen(parts + [part], rest) == PartsThen(parts, if rest.Ok? then Ok([part] + rest.value) else rest)
  {
    if rest.Ok? {
      assert parts + [part] + rest.value == parts + ([part] + rest.value);
    }
  }

  /** A polygon from its exterior figure and the interior figures after it. */
  method BuildPolygon(figureOffset: i32, t: Tables) returns (r: Decoded<Poly>)
    ensures r == PolygonAt(figureOffset, t)
  {
    if figureOffset < 0 {
      return Ok(NewPolygon([], []));
    }
    var exterior :- FigureCoords(figureOffset, t);
    var interiors: seq<Ring> := [];
    var index := figureOffset + 1;
    while index < |t.figures|
      invariant figureOffset < index <= |t.figures|
      invariant RingsAt(Holes(t.figures, figureOffset + 1), t) ==
                PartsThen(interiors, RingsAt(Holes(t.figures, index), t))
    {
      if t.figures[index].attribute == FIGURE_EXTERIOR_RING {
        break;
      }
      if t.figures[index].attribute == FIGURE_INTERIOR_RING {
        assert Holes(t.figures, index)[1..] == Holes(t.figures, index + 1);
        var interior :- FigureCoords(AsI32(index), t);
        PartsThenStep(interiors, interior, RingsAt(Holes(t.figures, index + 1), t));
        interiors := interiors + [interior];
      }
      index := index + 1;
    }
    r := Ok(NewPolygon(exterior, interiors));
  }

  /** One shape, with the child shapes that reference it. */
  method BuildShape(index: nat, t: Tables) returns (r: Decoded<Geometry>)
    requires Countable(t.shapes) && Rooted(index, t.shapes)
    ensures r == ShapeAt(index, t)
    decreases |t.shapes| - |PathTo(index, t.shapes)|
  {
    var shape := t.shapes[index];
    var children := Children(index, t.shapes);
    if shape.shapeType == SHAPE_POINT {
      var place :- FirstCoord(shape.figureOffset, t);
      r := Ok(Point(place));
    } else if shape.shapeType == SHAPE_LINESTRING {
      var line :- FigureCoords(shape.figureOffset, t);
      r := Ok(LineString(line));
    } else if shape.shapeType == SHAPE_POLYGON {
      var polygon :- BuildPolygon(shape.figureOffset, t);
      r := Ok(Polygon(polygon));
    } else if shape.shapeType == SHAPE_MULTIPOINT {
      var places :- BuildPlaces(children, t);
      r := Ok(MultiPoint(places));
    } else if shape.shapeType == SHAPE_MULTILINESTRING {
      var lines :- BuildLines(children, t);
      r := Ok(MultiLineString(lines));
    } else if shape.shapeType == SHAPE_MULTIPOLYGON {
      var polygons :- BuildPolygons(children, t);
      r := Ok(MultiPolygon(polygons));
    } else if shape.shapeType == SHAPE_GEOMETRYCOLLECTION {
      var result: seq<Geometry> := [];
      for i := 0 to |children|
        invariant children[0..] == children
        invariant ShapesAt(index, children, t) == PartsThen(result, ShapesAt(index, children[i..], t))
      {
        assert children[i..][1..] == children[i + 1..];
        ChildPath(index, children[i], t.shapes);
        var member :- BuildShape(children[i], t);
        PartsThenStep(result, member, ShapesAt(index, children[i + 1..], t));
        result := result + [member];
      }
      r := Ok(GeometryCollection(result));
    } else if SHAPE_CIRCULARSTRING <= shape.shapeType <= SHAPE_FULLGLOBE {
      r := Err(CurvedShape(shape.shapeType));
    } else {
      r := Err(UnknownShape(shape.shapeType));
    }
  }

  method BuildPlaces(children: seq<nat>, t: Tables) returns (r: Decoded<seq<Coord>>)
    requires forall i :: 0 <= i < |children| ==> children[i] < |t.shapes|
    ensures r == PlacesOf(children, t)
  {
    var result: seq<Coord> := [];
    for i := 0 to |children|
      invariant children[0..] == children
      invariant PlacesOf(children, t) == PartsThen(result, PlacesOf(children[i..], t))
    {
      assert children[i..][1..] == children[i + 1..];
      var place :- FirstCoord(t.shapes[children[i]].figureOffset, t);
      PartsThenStep(result, place, PlacesOf(children[i + 1..], t));
      result := result + [place];
    }
    r := Ok(result);
  }

  method BuildLines(children: seq<nat>, t: Tables) returns (r: Decoded<seq<seq<Coord>>>)
    requires forall i :: 0 <= i < |children| ==> children[i] < |t.shapes|
    ensures r == LinesOf(children, t)
  {
    var result: seq<seq<Coord>> := [];
    for i := 0 to |children|
      invariant children[0..] == children
      invariant LinesOf(children, t) == PartsThen(result, LinesOf(children[i..], t))
    {
      assert children[i..][1..] == children[i + 1..];
      var line :- FigureCoords(t.shapes[children[i]].figureOffset, t);
      PartsThenStep(result, line, LinesOf(children[i + 1..], t));
      result := result + [line];
    }
    r := Ok(result);
  }

  method BuildPolygons(children: seq<nat>, t: Tables) returns (r: Decoded<seq<Poly>>)
    requires forall i :: 0 <= i < |children| ==> children[i] < |t.shapes|
    ensures r == PolygonsOf(children, t)
  {
    var result: seq<Poly> := [];
    for i := 0 to |children|
      invariant children[0..] == children
      invariant PolygonsOf(children, t) == PartsThen(result, PolygonsOf(children[i..], t))
    {
      assert children[i..][1..] == children[i + 1..];
      var polygon :- BuildPolygon(t.shapes[children[i]].figureOffset, t);
      PartsThenStep(result, polygon, PolygonsOf(children[i + 1..], t));
      result := result + [polygon];
    }
    r := Ok(result);
  }
}
