/** What any tables are read as, and which are refused, said of the tables alone. */
module GeoReading {
  import opened Common
  import opened GeoTypes
  import opened GeoLayout
  import opened GeoLayoutProofs
  import opened GeoBuild

  // ----- Figures

  /** The points from `start` end at `end`: at the least greater offset of any
      figure, or at the end of the points. */
  predicate EndsAt(t: Tables, start: int, end: int) {
    && (forall j :: 0 <= j < |t.figures| && t.figures[j].pointOffset > start ==> end <= t.figures[j].pointOffset)
    && (|| (exists i :: 0 <= i < |t.figures| && t.figures[i].pointOffset == end && start < end)
        || (end == |t.points| && forall j :: 0 <= j < |t.figures| ==> t.figures[j].pointOffset <= start))
  }

  /** Any figure offset, in any tables: none is an empty list, one outside the
      table or with its points outside theirs is refused, and otherwise the
      points are those up to the end of the run. */
  lemma {:induction false} FigureRead(offset: i32, t: Tables) returns (end: int)
    ensures offset < 0 ==> FigureCoords(offset, t) == Ok([])
    ensures offset >= |t.figures| ==> FigureCoords(offset, t) == Err(FigureOutsideTable)
    ensures 0 <= offset < |t.figures| ==>
              var start := t.figures[offset].pointOffset;
              && EndsAt(t, start, end)
              && FigureCoords(offset, t) ==
                 if start <= end && end <= |t.points| then Ok(t.points[start..end]) else Err(PointRangeOutsideTable)
  {
    end := 0;
    if 0 <= offset < |t.figures| {
      var start := t.figures[offset].pointOffset;
      var least := MinAbove(t.figures, start, |t.figures|);
      MinAboveIsLeast(t.figures, start, |t.figures|);
      end := if least.Some? then least.value else |t.points|;
    }
  }

  /** The first point of a figure, or a refusal when it has none. */
  lemma {:induction false} FirstPointRead(offset: i32, t: Tables)
    ensures var coords := FigureCoords(offset, t);
            FirstCoord(offset, t) ==
            if coords.Err? then Err(coords.error)
            else if |coords.value| == 0 then Err(EmptyPoint)
            else Ok(coords.value[0])
  {}

  // ----- Holes and children

  /** Index `j` is one of the list. */
  predicate Lists(list: seq<nat>, j: nat) {
    exists i :: 0 <= i < |list| && list[i] == j
  }

  predicate Ascending(list: seq<nat>) {
    forall i, j :: 0 <= i < j < |list| ==> list[i] < list[j]
  }

  lemma {:induction false} ListsFirst(first: nat, rest: seq<nat>, j: nat)
    ensures Lists([first] + rest, j) <==> j == first || Lists(rest, j)
  {
    var list := [first] + rest;
    if j == first {
      assert list[0] == j;
    }
    if Lists(rest, j) {
      var i :| 0 <= i < |rest| && rest[i] == j;
      assert list[i + 1] == j;
    }
  }

  lemma {:induction false} ListsLast(front: seq<nat>, last: nat, j: nat)
    ensures Lists(front + [last], j) <==> Lists(front, j) || j == last
  {
    var list := front + [last];
    if Lists(front, j) {
      var i :| 0 <= i < |front| && front[i] == j;
      assert list[i] == j;
    }
    if j == last {
      assert list[|front|] == j;
    }
  }

  /** The holes of a polygon are the interior figures (attribute 0) up to the
      first exterior one (attribute 2), in order. */
  lemma {:induction false} HolesRead(figures: seq<Figure>, from: nat) returns (stop: nat)
    ensures from <= stop && (|figures| <= stop || figures[stop].attribute == 2)
    ensures forall j :: from <= j < stop && j < |figures| ==> figures[j].attribute != 2
    ensures Ascending(Holes(figures, from))
    ensures forall j: nat :: Lists(Holes(figures, from), j) <==>
              from <= j < stop && j < |figures| && figures[j].attribute == 0
    decreases |figures| - from
  {
    if |figures| <= from || figures[from].attribute == 2 {
      stop := from;
    } else {
      stop := HolesRead(figures, from + 1);
      if figures[from].attribute == 0 {
        var rest := Holes(figures, from + 1);
        forall j: nat ensures Lists([from] + rest, j) <==> j == from || Lists(rest, j) {
          ListsFirst(from, rest, j);
        }
        forall i | 0 <= i < |rest| ensures from < rest[i] {
          assert Lists(rest, rest[i]);
        }
      }
    }
  }

  /** The children of a shape are all shapes that name it, in order. */
  lemma {:induction false} KidsRead(shapes: seq<Shape>, key: i32, n: nat)
    requires n <= |shapes|
    ensures Ascending(Kids(shapes, key, n))
    ensures forall j: nat :: Lists(Kids(shapes, key, n), j) <==> j < n && shapes[j].parent == key
  {
    KidsAscend(shapes, key, n);
    forall j: nat ensures Lists(Kids(shapes, key, n), j) <==> j < n && shapes[j].parent == key {
      KidListed(shapes, key, n, j);
    }
  }

  lemma {:induction false} KidsAscend(shapes: seq<Shape>, key: i32, n: nat)
    requires n <= |shapes|
    ensures Ascending(Kids(shapes, key, n))
  {
    if n > 0 {
      KidsAscend(shapes, key, n - 1);
    }
  }

  lemma {:induction false} KidListed(shapes: seq<Shape>, key: i32, n: nat, j: nat)
    requires n <= |shapes|
    ensures Lists(Kids(shapes, key, n), j) <==> j < n && shapes[j].parent == key
  {
    if n > 0 {
      KidListed(shapes, key, n - 1, j);
      if shapes[n - 1].parent == key {
        ListsLast(Kids(shapes, key, n - 1), n - 1, j);
      } else {
        assert Kids(shapes, key, n) == Kids(shapes, key, n - 1);
      }
    }
  }

  // ----- Lists that stop at the first failure

  /** The list read from the parts: all of them, or the first one's failure. */
  predicate AllOrFirst<T(==)>(parts: seq<Decoded<T>>, all: Decoded<seq<T>>) {
    if all.Ok? then
      |all.value| == |parts| && forall i :: 0 <= i < |parts| ==> parts[i] == Ok(all.value[i])
    else
      exists k :: 0 <= k < |parts| && parts[k] == Err(all.error) && forall i :: 0 <= i < k ==> parts[i].Ok?
  }

  lemma {:induction false} AllOrFirstCons<T>(first: Decoded<T>, parts: seq<Decoded<T>>, all: Decoded<seq<T>>)
    requires first.Ok? ==> AllOrFirst(parts, all)
    ensures AllOrFirst([first] + parts,
                       if first.Err? then Err(first.error) else if all.Err? then all else Ok([first.value] + all.value))
  {
    var list := [first] + parts;
    if first.Err? {
      assert list[0] == first;
    } else if all.Err? {
      var k :| 0 <= k < |parts| && parts[k] == Err(all.error) && forall i :: 0 <= i < k ==> parts[i].Ok?;
      assert list[k + 1] == Err(all.error);
      forall i | 0 <= i < k + 1 ensures list[i].Ok? {
        assert i > 0 ==> list[i] == parts[i - 1];
      }
    }
  }

  function PointParts(kids: seq<nat>, t: Tables): (parts: seq<Decoded<Coord>>)
    requires forall i :: 0 <= i < |kids| ==> kids[i] < |t.shapes|
    ensures |parts| == |kids|
    ensures forall i :: 0 <= i < |kids| ==> parts[i] == FirstCoord(t.shapes[kids[i]].figureOffset, t)
  {
    if kids == [] then [] else [FirstCoord(t.shapes[kids[0]].figureOffset, t)] + PointParts(kids[1..], t)
  }

  function LineParts(kids: seq<nat>, t: Tables): (parts: seq<Decoded<seq<Coord>>>)
    requires forall i :: 0 <= i < |kids| ==> kids[i] < |t.shapes|
    ensures |parts| == |kids|
    ensures forall i :: 0 <= i < |kids| ==> parts[i] == FigureCoords(t.shapes[kids[i]].figureOffset, t)
  {
    if kids == [] then [] else [FigureCoords(t.shapes[kids[0]].figureOffset, t)] + LineParts(kids[1..], t)
  }

  function PolygonParts(kids: seq<nat>, t: Tables): (parts: seq<Decoded<Poly>>)
    requires forall i :: 0 <= i < |kids| ==> kids[i] < |t.shapes|
    ensures |parts| == |kids|
    ensures forall i :: 0 <= i < |kids| ==> parts[i] == PolygonAt(t.shapes[kids[i]].figureOffset, t)
  {
    if kids == [] then [] else [PolygonAt(t.shapes[kids[0]].figureOffset, t)] + PolygonParts(kids[1..], t)
  }

  function RingParts(offsets: seq<nat>, t: Tables): (parts: seq<Decoded<Ring>>)
    ensures |parts| == |offsets|
    ensures forall i :: 0 <= i < |offsets| ==> parts[i] == FigureCoords(AsI32(offsets[i]), t)
  {
    if offsets == [] then [] else [FigureCoords(AsI32(offsets[0]), t)] + RingParts(offsets[1..], t)
  }

  lemma {:induction false} PointsRead(kids: seq<nat>, t: Tables)
    requires forall i :: 0 <= i < |kids| ==> kids[i] < |t.shapes|
    ensures AllOrFirst(PointParts(kids, t), PlacesOf(kids, t))
  {
    if kids != [] {
      PointsRead(kids[1..], t);
      AllOrFirstCons(PointParts(kids, t)[0], PointParts(kids[1..], t), PlacesOf(kids[1..], t));
    }
  }

  lemma {:induction false} LinesRead(kids: seq<nat>, t: Tables)
    requires forall i :: 0 <= i < |kids| ==> kids[i] < |t.shapes|
    ensures AllOrFirst(LineParts(kids, t), LinesOf(kids, t))
  {
    if kids != [] {
      LinesRead(kids[1..], t);
      AllOrFirstCons(LineParts(kids, t)[0], LineParts(kids[1..], t), LinesOf(kids[1..], t));
    }
  }

  lemma {:induction false} PolygonsRead(kids: seq<nat>, t: Tables)
    requires forall i :: 0 <= i < |kids| ==> kids[i] < |t.shapes|
    ensures AllOrFirst(PolygonParts(kids, t), PolygonsOf(kids, t))
  {
    if kids != [] {
      PolygonsRead(kids[1..], t);
      AllOrFirstCons(PolygonParts(kids, t)[0], PolygonParts(kids[1..], t), PolygonsOf(kids[1..], t));
    }
  }

  lemma {:induction false} RingsRead(offsets: seq<nat>, t: Tables)
    ensures AllOrFirst(RingParts(offsets, t), RingsAt(offsets, t))
  {
    if offsets != [] {
      RingsRead(offsets[1..], t);
      AllOrFirstCons(RingParts(offsets, t)[0], RingParts(offsets[1..], t), RingsAt(offsets[1..], t));
    }
  }

  /** A polygon is its exterior and then its holes, each closed; the exterior's
      failure comes first. */
  lemma {:induction false} PolygonRead(offset: i32, t: Tables)
    ensures offset < 0 ==> PolygonAt(offset, t) == Ok(Poly([], []))
    ensures offset >= 0 ==>
              var exterior, holes := FigureCoords(offset, t), RingsAt(Holes(t.figures, offset + 1), t);
              PolygonAt(offset, t) ==
              if exterior.Err? then Err(exterior.error)
              else if holes.Err? then Err(holes.error)
              else Ok(Poly(Close(exterior.value), CloseAll(holes.value)))
  {
    assert CloseAll([]) == [];
  }

  // ----- Shapes

  function MemberParts(index: nat, kids: seq<nat>, t: Tables): (parts: seq<Decoded<Geometry>>)
    requires Countable(t.shapes) && Rooted(index, t.shapes)
    requires forall i :: 0 <= i < |kids| ==> kids[i] < |t.shapes| && t.shapes[kids[i]].parent == AsI32(index)
    ensures |parts| == |kids|
    ensures forall i :: 0 <= i < |kids| ==> Rooted(kids[i], t.shapes) && parts[i] == ShapeAt(kids[i], t)
  {
    if kids == [] then []
    else
      ChildPath(index, kids[0], t.shapes);
      [ShapeAt(kids[0], t)] + MemberParts(index, kids[1..], t)
  }

  lemma {:induction false} MembersRead(index: nat, kids: seq<nat>, t: Tables)
    requires Countable(t.shapes) && Rooted(index, t.shapes)
    requires forall i :: 0 <= i < |kids| ==> kids[i] < |t.shapes| && t.shapes[kids[i]].parent == AsI32(index)
    ensures AllOrFirst(MemberParts(index, kids, t), ShapesAt(index, kids, t))
    decreases |kids|
  {
    if kids != [] {
      ChildPath(index, kids[0], t.shapes);
      MembersRead(index, kids[1..], t);
      AllOrFirstCons(MemberParts(index, kids, t)[0], MemberParts(index, kids[1..], t), ShapesAt(index, kids[1..], t));
    }
  }

  /** A geometry of one part, or the part's failure. */
  predicate MadeOf<T(!new)>(g: Decoded<Geometry>, part: Decoded<T>, make: T -> Geometry) {
    if part.Ok? then g == Ok(make(part.value)) else g == Err(part.error)
  }

  /** Any shape of any tables, by its type code. */
  lemma {:induction false} ShapeKinds(index: nat, t: Tables)
    requires Countable(t.shapes) && Rooted(index, t.shapes)
    ensures var shape, kids, g := t.shapes[index], Children(index, t.shapes), ShapeAt(index, t);
            && (shape.shapeType == 1 ==> MadeOf(g, FirstCoord(shape.figureOffset, t), c => Point(c)))
            && (shape.shapeType == 2 ==> MadeOf(g, FigureCoords(shape.figureOffset, t), cs => LineString(cs)))
            && (shape.shapeType == 3 ==> MadeOf(g, PolygonAt(shape.figureOffset, t), p => Polygon(p)))
            && (shape.shapeType == 4 ==> MadeOf(g, PlacesOf(kids, t), ps => MultiPoint(ps)))
            && (shape.shapeType == 5 ==> MadeOf(g, LinesOf(kids, t), ls => MultiLineString(ls)))
            && (shape.shapeType == 6 ==> MadeOf(g, PolygonsOf(kids, t), ps => MultiPolygon(ps)))
            && (shape.shapeType == 7 ==> MadeOf(g, ShapesAt(index, kids, t), ms => GeometryCollection(ms)))
            && (8 <= shape.shapeType <= 11 ==> g == Err(CurvedShape(shape.shapeType)))
            && (shape.shapeType == 0 || shape.shapeType > 11 ==> g == Err(UnknownShape(shape.shapeType)))
  {}

  /** Decoding starts at the first shape without a parent, and is refused when
      there is none. */
  lemma {:induction false} AssembleStarts(t: Tables) returns (top: nat)
    requires Countable(t.shapes)
    ensures (forall j :: 0 <= j < |t.shapes| ==> t.shapes[j].parent != -1) ==> Assemble(t) == Err(NoTopLevelShape)
    ensures (exists j :: 0 <= j < |t.shapes| && t.shapes[j].parent == -1) ==>
              && top < |t.shapes| && t.shapes[top].parent == -1
              && (forall j :: 0 <= j < top ==> t.shapes[j].parent != -1)
              && Rooted(top, t.shapes) && Assemble(t) == ShapeAt(top, t)
  {
    FirstTop(t.shapes, 0);
    top := 0;
    if Top(t.shapes, 0).Some? {
      top := Top(t.shapes, 0).value;
      TopIsRooted(t.shapes, 0);
    }
  }

  lemma {:induction false} FirstTop(shapes: seq<Shape>, from: nat)
    ensures var top := Top(shapes, from);
            if top.Some? then
              && from <= top.value < |shapes| && shapes[top.value].parent == -1
              && forall j :: from <= j < top.value ==> shapes[j].parent != -1
            else forall j :: from <= j < |shapes| ==> shapes[j].parent != -1
    decreases |shapes| - from
  {
    if from < |shapes| && shapes[from].parent != -1 {
      FirstTop(shapes, from + 1);
    }
  }

  // ----- Numbers and rings

  /** How numbers compare: the two zeros are equal, an infinity and any other
      number equal themselves, and a NaN does not. */
  lemma {:induction false} NumbersCompare()
    ensures SameNumber([0, 0, 0, 0, 0, 0, 0, 0], [0, 0, 0, 0, 0, 0, 0, 128])
    ensures SameNumber([0, 0, 0, 0, 0, 0, 240, 127], [0, 0, 0, 0, 0, 0, 240, 127])
    ensures SameNumber([0, 0, 0, 0, 0, 0, 240, 63], [0, 0, 0, 0, 0, 0, 240, 63])
    ensures !SameNumber([0, 0, 0, 0, 0, 0, 240, 63], [0, 0, 0, 0, 0, 0, 0, 64])
    ensures !SameNumber([0, 0, 0, 0, 0, 0, 248, 127], [0, 0, 0, 0, 0, 0, 248, 127])
    ensures !SameNumber([1, 0, 0, 0, 0, 0, 240, 255], [1, 0, 0, 0, 0, 0, 240, 255])
  {}
}
