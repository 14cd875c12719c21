/** Rebuilding a geometry from any shape table, and why that ends: every shape
    names one parent, so a path from a root never meets the same shape twice. */
module GeoBuild {
  import opened Common
  import opened GeoTypes
  import opened GeoLayout

  // ----- Paths from a root shape

  /** A path of parent references that starts at a shape without a parent. */
  ghost predicate IsPath(path: seq<nat>, shapes: seq<Shape>) {
    && 0 < |path|
    && (forall k :: 0 <= k < |path| ==> path[k] < |shapes|)
    && shapes[path[0]].parent == -1
    && (forall k :: 1 <= k < |path| ==> shapes[path[k]].parent == AsI32(path[k - 1]))
  }

  /** Shape `index` is reached from a shape without a parent. */
  ghost predicate Rooted(index: nat, shapes: seq<Shape>) {
    exists path :: IsPath(path, shapes) && path[|path| - 1] == index
  }

  ghost function PathTo(index: nat, shapes: seq<Shape>): (path: seq<nat>)
    requires Rooted(index, shapes)
    ensures IsPath(path, shapes) && path[|path| - 1] == index
  {
    var path :| IsPath(path, shapes) && path[|path| - 1] == index;
    path
  }

  /** A table that a payload can declare: its count is a `u32`. */
  predicate Countable(shapes: seq<Shape>) {
    |shapes| < 0x1_0000_0000
  }

  lemma {:induction false} IndexCast(a: nat, b: nat)
    requires a < 0xFFFF_FFFF && b < 0xFFFF_FFFF
    ensures AsI32(a) != -1
    ensures AsI32(a) == AsI32(b) ==> a == b
  {}

  /** Single parents: a shape is reached along one path only. */
  lemma {:induction false} PathUnique(p: seq<nat>, q: seq<nat>, shapes: seq<Shape>)
    requires Countable(shapes) && IsPath(p, shapes) && IsPath(q, shapes)
    requires p[|p| - 1] == q[|q| - 1]
    ensures p == q
    decreases |p|
  {
    var m, n := |p|, |q|;
    if m > 1 { IndexCast(p[m - 2], p[m - 2]); }
    if n > 1 { IndexCast(q[n - 2], q[n - 2]); }
    if m > 1 && n > 1 {
      var p1, q1 := p[..m - 1], q[..n - 1];
      IndexCast(p[m - 2], q[n - 2]);
      PathUnique(p1, q1, shapes);
      assert p == p1 + [p[m - 1]] && q == q1 + [q[n - 1]];
    }
  }

  lemma {:induction false} PathDistinct(path: seq<nat>, shapes: seq<Shape>, i: nat, j: nat)
    requires Countable(shapes) && IsPath(path, shapes)
    requires i < j < |path|
    ensures path[i] != path[j]
  {
    if path[i] == path[j] {
      PathUnique(path[..i + 1], path[..j + 1], shapes);
      assert false;
    }
  }

  /** Distinct indices below `n` are at most `n` many. */
  lemma {:induction false} Pigeonhole(path: seq<nat>, n: nat)
    requires forall k :: 0 <= k < |path| ==> path[k] < n
    requires forall i, j :: 0 <= i < j < |path| ==> path[i] != path[j]
    ensures |path| <= n
    decreases n
  {
    if path != [] {
      var last := |path| - 1;
      assert path[0] < n;
      // Close the gap at the last index by moving n - 1 there.
      var rest := seq(last, k requires 0 <= k < last => if path[k] == n - 1 then path[last] else path[k]);
      forall i, j | 0 <= i < j < last ensures rest[i] != rest[j] {
        assert path[i] != path[j] && path[i] != path[last] && path[j] != path[last];
      }
      forall k | 0 <= k < last ensures rest[k] < n - 1 {
        assert path[k] != path[last];
      }
      Pigeonhole(rest, n - 1);
    }
  }

  /** A path from a root is no longer than the shape table. */
  lemma {:induction false} PathBounded(path: seq<nat>, shapes: seq<Shape>)
    requires Countable(shapes) && IsPath(path, shapes)
    ensures |path| <= |shapes|
  {
    forall i, j | 0 <= i < j < |path| ensures path[i] != path[j] {
      PathDistinct(path, shapes, i, j);
    }
    Pigeonhole(path, |shapes|);
  }

  /** Going down to a child lengthens the path by one. */
  lemma {:induction false} ChildPath(index: nat, child: nat, shapes: seq<Shape>)
    requires Countable(shapes) && Rooted(index, shapes)
    requires child < |shapes| && shapes[child].parent == AsI32(index)
    ensures Rooted(child, shapes)
    ensures |PathTo(child, shapes)| == |PathTo(index, shapes)| + 1 <= |shapes|
  {
    var path := PathTo(index, shapes) + [child];
    assert IsPath(path, shapes) && path[|path| - 1] == child;
    PathUnique(path, PathTo(child, shapes), shapes);
    PathBounded(path, shapes);
  }

  // ----- Rebuilding

  function FirstCoord(offset: i32, t: Tables): Decoded<Coord> {
    var coords :- FigureCoords(offset, t);
    if coords == [] then Err(EmptyPoint) else Ok(coords[0])
  }

  function RingsAt(offsets: seq<nat>, t: Tables): Decoded<seq<Ring>> {
    if offsets == [] then Ok([])
    else
      var ring :- FigureCoords(AsI32(offsets[0]), t);
      var rings :- RingsAt(offsets[1..], t);
      Ok([ring] + rings)
  }

  function PolygonAt(offset: i32, t: Tables): Decoded<Poly> {
    if offset < 0 then Ok(NewPolygon([], []))
    else
      var exterior :- FigureCoords(offset, t);
      var interiors :- RingsAt(Holes(t.figures, offset + 1), t);
      Ok(NewPolygon(exterior, interiors))
  }

  /** The indices that `build_shape` finds for the children of shape `index`. */
  function Children(index: nat, shapes: seq<Shape>): (kids: seq<nat>)
    ensures forall i :: 0 <= i < |kids| ==> kids[i] < |shapes| && shapes[kids[i]].parent == AsI32(index)
  {
    Kids(shapes, AsI32(index), |shapes|)
  }

  function PlacesOf(kids: seq<nat>, t: Tables): Decoded<seq<Coord>>
    requires forall i :: 0 <= i < |kids| ==> kids[i] < |t.shapes|
  {
    if kids == [] then Ok([])
    else
      var place :- FirstCoord(t.shapes[kids[0]].figureOffset, t);
      var places :- PlacesOf(kids[1..], t);
      Ok([place] + places)
  }

  function LinesOf(kids: seq<nat>, t: Tables): Decoded<seq<seq<Coord>>>
    requires forall i :: 0 <= i < |kids| ==> kids[i] < |t.shapes|
  {
    if kids == [] then Ok([])
    else
      var line :- FigureCoords(t.shapes[kids[0]].figureOffset, t);
      var lines :- LinesOf(kids[1..], t);
      Ok([line] + lines)
  }

  function PolygonsOf(kids: seq<nat>, t: Tables): Decoded<seq<Poly>>
    requires forall i :: 0 <= i < |kids| ==> kids[i] < |t.shapes|
  {
    if kids == [] then Ok([])
    else
      var polygon :- PolygonAt(t.shapes[kids[0]].figureOffset, t);
      var polygons :- PolygonsOf(kids[1..], t);
      Ok([polygon] + polygons)
  }

  /** The geometry below shape `index`. Its measure is the number of shapes
      that are not on the path from the root. */
  function ShapeAt(index: nat, t: Tables): Decoded<Geometry>
    requires Countable(t.shapes) && Rooted(index, t.shapes)
    decreases |t.shapes| - |PathTo(index, t.shapes)|, 1, 0
  {
    var shape := t.shapes[index];
    var kids := Children(index, t.shapes);
    if shape.shapeType == SHAPE_POINT then
      var place :- FirstCoord(shape.figureOffset, t);
      Ok(Point(place))
    else if shape.shapeType == SHAPE_LINESTRING then
      var line :- FigureCoords(shape.figureOffset, t);
      Ok(LineString(line))
    else if shape.shapeType == SHAPE_POLYGON then
      var polygon :- PolygonAt(shape.figureOffset, t);
      Ok(Polygon(polygon))
    else if shape.shapeType == SHAPE_MULTIPOINT then
      var places :- PlacesOf(kids, t);
      Ok(MultiPoint(places))
    else if shape.shapeType == SHAPE_MULTILINESTRING then
      var lines :- LinesOf(kids, t);
      Ok(MultiLineString(lines))
    else if shape.shapeType == SHAPE_MULTIPOLYGON then
      var polygons :- PolygonsOf(kids, t);
      Ok(MultiPolygon(polygons))
    else if shape.shapeType == SHAPE_GEOMETRYCOLLECTION then
      var members :- ShapesAt(index, kids, t);
      Ok(GeometryCollection(members))
    else if SHAPE_CIRCULARSTRING <= shape.shapeType <= SHAPE_FULLGLOBE then
      Err(CurvedShape(shape.shapeType))
    else Err(UnknownShape(shape.shapeType))
  }

  /** The geometries of some children of shape `index`. */
  function ShapesAt(index: nat, kids: seq<nat>, t: Tables): Decoded<seq<Geometry>>
    requires Countable(t.shapes) && Rooted(index, t.shapes)
    requires forall i :: 0 <= i < |kids| ==>
                           kids[i] < |t.shapes| && t.shapes[kids[i]].parent == AsI32(index)
    decreases |t.shapes| - |PathTo(index, t.shapes)|, 0, |kids|
  {
    if kids == [] then Ok([])
    else
      ChildPath(index, kids[0], t.shapes);
      var member :- ShapeAt(kids[0], t);
      var members :- ShapesAt(index, kids[1..], t);
      Ok([member] + members)
  }

  /** The first shape without a parent. */
  function Top(shapes: seq<Shape>, from: nat): Option<nat>
    decreases |shapes| - from
  {
    if |shapes| <= from then None
    else if shapes[from].parent == -1 then Some(from)
    else Top(shapes, from + 1)
  }

  lemma {:induction false} TopIsRooted(shapes: seq<Shape>, from: nat)
    requires Top(shapes, from).Some?
    ensures Top(shapes, from).value < |shapes| && Rooted(Top(shapes, from).value, shapes)
    decreases |shapes| - from
  {
    if shapes[from].parent == -1 {
      assert IsPath([from], shapes);
      assert [from][|[from]| - 1] == from;
    } else {
      TopIsRooted(shapes, from + 1);
    }
  }

  /** The geometry that a payload's tables stand for. */
  function Assemble(t: Tables): Decoded<Geometry>
    requires Countable(t.shapes)
  {
    var top := Top(t.shapes, 0);
    if top.None? then Err(NoTopLevelShape)
    else
      TopIsRooted(t.shapes, 0);
      ShapeAt(top.value, t)
  }
}
