/** What comes back when a geometry's own tables are read. */
module GeoRoundTrip {
  import opened Common
  import opened GeoTypes
  import opened GeoLayout
  import opened GeoLayoutProofs
  import opened GeoBuild

  // ----- What a reader gets

  /** A polygon as it is read back. When the exterior is empty but a hole is
      not, both figures start at the same point, and the hole's points are read
      as the exterior too. */
  function PolyBack(p: Poly): Poly {
    NewPolygon(ExteriorBack(p), NonEmpty(p.interiors))
  }

  function ExteriorBack(p: Poly): Ring {
    var holes := NonEmpty(p.interiors);
    if p.exterior == [] && holes != [] then holes[0] else p.exterior
  }

  function PolysBack(ps: seq<Poly>): (polygons: seq<Poly>)
    ensures |polygons| == |ps| && forall i :: 0 <= i < |ps| ==> polygons[i] == PolyBack(ps[i])
  {
    if ps == [] then [] else [PolyBack(ps[0])] + PolysBack(ps[1..])
  }

  function MembersBack(ms: seq<Geometry>): (members: seq<Geometry>)
    ensures |members| == |ms| && forall i :: 0 <= i < |ms| ==> members[i] == ReadBack(ms[i])
    decreases ms, 1
  {
    if ms == [] then [] else [ReadBack(ms[0])] + MembersBack(ms[1..])
  }

  function ReadBack(g: Geometry): Geometry
    decreases g, 0
  {
    match g
    case Point(_) => g
    case Line(start, end) => LineString([start, end])
    case LineString(_) => g
    case Polygon(p) => Polygon(PolyBack(p))
    case MultiPoint(_) => g
    case MultiLineString(_) => g
    case MultiPolygon(ps) => MultiPolygon(PolysBack(ps))
    case GeometryCollection(ms) => GeometryCollection(MembersBack(ms))
    case Rect(outline) => Polygon(PolyBack(Poly(outline, [])))
    case Triangle(outline) => Polygon(PolyBack(Poly(outline, [])))
  }

  /** What the format promises to keep: the same shape, as one of the seven
      decodable kinds, with every ring closed and empty holes dropped. */
  function PolyNorm(p: Poly): Poly {
    NewPolygon(p.exterior, NonEmpty(p.interiors))
  }

  function PolysNorm(ps: seq<Poly>): (polygons: seq<Poly>)
    ensures |polygons| == |ps| && forall i :: 0 <= i < |ps| ==> polygons[i] == PolyNorm(ps[i])
  {
    if ps == [] then [] else [PolyNorm(ps[0])] + PolysNorm(ps[1..])
  }

  function MembersNorm(ms: seq<Geometry>): (members: seq<Geometry>)
    ensures |members| == |ms| && forall i :: 0 <= i < |ms| ==> members[i] == Norm(ms[i])
    decreases ms, 1
  {
    if ms == [] then [] else [Norm(ms[0])] + MembersNorm(ms[1..])
  }

  function Norm(g: Geometry): Geometry
    decreases g, 0
  {
    match g
    case Point(_) => g
    case Line(start, end) => LineString([start, end])
    case LineString(_) => g
    case Polygon(p) => Polygon(PolyNorm(p))
    case MultiPoint(_) => g
    case MultiLineString(_) => g
    case MultiPolygon(ps) => MultiPolygon(PolysNorm(ps))
    case GeometryCollection(ms) => GeometryCollection(MembersNorm(ms))
    case Rect(outline) => Polygon(PolyNorm(Poly(outline, [])))
    case Triangle(outline) => Polygon(PolyNorm(Poly(outline, [])))
  }

  /** An empty exterior ring around a non-empty hole. */
  predicate HollowPoly(p: Poly) {
    p.exterior == [] && exists i :: 0 <= i < |p.interiors| && p.interiors[i] != []
  }

  predicate Hollow(g: Geometry) {
    match g
    case Polygon(p) => HollowPoly(p)
    case MultiPolygon(ps) => exists i :: 0 <= i < |ps| && HollowPoly(ps[i])
    case GeometryCollection(ms) => exists i :: 0 <= i < |ms| && Hollow(ms[i])
    case _ => false
  }

  /** A ring that `Polygon::new` leaves alone. */
  predicate Closed(ring: Ring) {
    ring == [] || SamePlace(ring[0], ring[|ring| - 1])
  }

  predicate CanonicalPoly(p: Poly) {
    && Closed(p.exterior)
    && (forall i :: 0 <= i < |p.interiors| ==> p.interiors[i] != [] && Closed(p.interiors[i]))
    && (p.exterior == [] ==> p.interiors == [])
  }

  predicate Canonical(g: Geometry) {
    match g
    case Polygon(p) => CanonicalPoly(p)
    case MultiPolygon(ps) => forall i :: 0 <= i < |ps| ==> CanonicalPoly(ps[i])
    case GeometryCollection(ms) => forall i :: 0 <= i < |ms| ==> Canonical(ms[i])
    case Point(_) => true
    case LineString(_) => true
    case MultiPoint(_) => true
    case MultiLineString(_) => true
    case _ => false
  }

  // ----- Every plan obeys the figure rules

  lemma {:induction false} NonEmptyRings(rings: seq<Ring>)
    ensures forall i :: 0 <= i < |NonEmpty(rings)| ==> NonEmpty(rings)[i] != []
    ensures NonEmpty(rings) == [] <==> forall i :: 0 <= i < |rings| ==> rings[i] == []
    ensures |NonEmpty(rings)| <= |rings|
    ensures NonEmpty(rings) == rings <==> forall i :: 0 <= i < |rings| ==> rings[i] != []
  {
    if rings != [] {
      NonEmptyRings(rings[1..]);
      assert forall i :: 1 <= i < |rings| ==> rings[i] == rings[1..][i - 1];
      assert rings == [rings[0]] + rings[1..];
    }
  }

  lemma {:induction false} PolygonRunsGood(p: Poly)
    ensures GoodRuns(PolygonRuns(p))
  {
    NonEmptyRings(p.interiors);
  }

  lemma {:induction false} PlanGood(g: Geometry)
    ensures GoodNode(Plan(g))
  {
    match g
    case Polygon(p) => PolygonRunsGood(p);
    case MultiPolygon(ps) =>
      forall i | 0 <= i < |ps| ensures GoodNode(PolygonNode(ps[i])) { PolygonRunsGood(ps[i]); }
    case GeometryCollection(ms) =>
      forall i | 0 <= i < |ms| ensures GoodNode(Plan(ms[i])) { PlanGood(ms[i]); }
    case Rect(outline) => PolygonRunsGood(Poly(outline, []));
    case Triangle(outline) => PolygonRunsGood(Poly(outline, []));
    case _ =>
  }

  // ----- Reading shapes that spell out a plan

  lemma {:induction false} ReadPoint(c: Coord, index: nat, t: Tables)
    requires Represents(PointNode(c), index, t)
    ensures FirstCoord(t.shapes[index].figureOffset, t) == Ok(c)
  {
    assert FigureCoords(t.shapes[index].figureOffset + 0, t) == Ok(Seen([PointRun(FIGURE_STROKE, [c])], 0));
  }

  lemma {:induction false} ReadLine(line: seq<Coord>, index: nat, t: Tables)
    requires Represents(LineNode(line), index, t)
    ensures FigureCoords(t.shapes[index].figureOffset, t) == Ok(line)
  {
    if line != [] {
      assert FigureCoords(t.shapes[index].figureOffset + 0, t) == Ok(Seen(StrokeRuns(line), 0));
    }
  }

  function CoordsFrom(runs: seq<PointRun>, from: nat): seq<Ring>
    decreases |runs| - from
  {
    if |runs| <= from then [] else [runs[from].coords] + CoordsFrom(runs, from + 1)
  }

  /** The rings read from consecutive hole figures. */
  lemma {:induction false} ReadRings(runs: seq<PointRun>, offset: nat, from: nat, t: Tables)
    requires runs != [] && offset < 0x8000_0000 && RunsAt(runs, offset, t) && GoodRuns(runs)
    requires 1 <= from <= |runs|
    ensures RingsAt(Range(offset + from, offset + |runs|), t) == Ok(CoordsFrom(runs, from))
    decreases |runs| - from
  {
    if from < |runs| {
      ReadRings(runs, offset, from + 1, t);
      assert FigureCoords(offset + from, t) == Ok(Seen(runs, from));
      FirstRing(offset + from, offset + |runs|, runs[from].coords, CoordsFrom(runs, from + 1), t);
    }
  }

  lemma {:induction false} FirstRing(lo: nat, hi: nat, ring: Ring, rings: seq<Ring>, t: Tables)
    requires lo < hi <= 0x8000_0000
    requires FigureCoords(lo, t) == Ok(ring) && RingsAt(Range(lo + 1, hi), t) == Ok(rings)
    ensures RingsAt(Range(lo, hi), t) == Ok([ring] + rings)
  {
    var range := Range(lo, hi);
    assert range[0] == lo && range[1..] == Range(lo + 1, hi);
    assert AsI32(lo) == lo;
  }

  lemma {:induction false} HoleCoords(exterior: PointRun, rings: seq<Ring>, from: nat)
    requires from <= |rings|
    ensures CoordsFrom([exterior] + HoleRuns(rings), from + 1) == rings[from..]
    decreases |rings| - from
  {
    if from < |rings| {
      HoleCoords(exterior, rings, from + 1);
    }
  }

  lemma {:induction false} RunsOfPolygon(p: Poly)
    requires PolygonRuns(p) != []
    ensures var runs := PolygonRuns(p);
            && GoodRuns(runs)
            && Seen(runs, 0) == ExteriorBack(p)
            && CoordsFrom(runs, 1) == NonEmpty(p.interiors)
  {
    PolygonRunsGood(p);
    HoleCoords(PointRun(FIGURE_EXTERIOR_RING, p.exterior), NonEmpty(p.interiors), 0);
  }

  lemma {:induction false} ReadRuns(runs: seq<PointRun>, offset: i32, t: Tables)
    requires runs != [] && GoodRuns(runs) && RunsAt(runs, offset, t)
    ensures PolygonAt(offset, t) == Ok(NewPolygon(Seen(runs, 0), CoordsFrom(runs, 1)))
  {
    ReadRings(runs, offset, 1, t);
    assert FigureCoords(offset + 0, t) == Ok(Seen(runs, 0));
  }

  lemma {:induction false} ReadPolygon(p: Poly, index: nat, t: Tables)
    requires Represents(PolygonNode(p), index, t)
    ensures PolygonAt(t.shapes[index].figureOffset, t) == Ok(PolyBack(p))
  {
    if PolygonRuns(p) != [] {
      RunsOfPolygon(p);
      ReadRuns(PolygonRuns(p), t.shapes[index].figureOffset, t);
    }
  }

  lemma {:induction false} ReadPoints(places: seq<Coord>, kids: seq<nat>, t: Tables)
    requires |places| == |kids|
    requires forall i :: 0 <= i < |kids| ==> kids[i] < |t.shapes|
    requires forall i :: 0 <= i < |kids| ==> Represents(PointNode(places[i]), kids[i], t)
    ensures PlacesOf(kids, t) == Ok(places)
  {
    if kids != [] {
      ReadPoint(places[0], kids[0], t);
      ReadPoints(places[1..], kids[1..], t);
      assert places == [places[0]] + places[1..];
    }
  }

  lemma {:induction false} ReadLines(lines: seq<seq<Coord>>, kids: seq<nat>, t: Tables)
    requires |lines| == |kids|
    requires forall i :: 0 <= i < |kids| ==> kids[i] < |t.shapes|
    requires forall i :: 0 <= i < |kids| ==> Represents(LineNode(lines[i]), kids[i], t)
    ensures LinesOf(kids, t) == Ok(lines)
  {
    if kids != [] {
      ReadLine(lines[0], kids[0], t);
      ReadLines(lines[1..], kids[1..], t);
      assert lines == [lines[0]] + lines[1..];
    }
  }

  lemma {:induction false} ReadPolygons(ps: seq<Poly>, kids: seq<nat>, t: Tables)
    requires |ps| == |kids|
    requires forall i :: 0 <= i < |kids| ==> kids[i] < |t.shapes|
    requires forall i :: 0 <= i < |kids| ==> Represents(PolygonNode(ps[i]), kids[i], t)
    ensures PolygonsOf(kids, t) == Ok(PolysBack(ps))
  {
    if kids != [] {
      ReadPolygon(ps[0], kids[0], t);
      ReadPolygons(ps[1..], kids[1..], t);
    }
  }

  /** What a branch says of its shape and its children. */
  lemma {:induction false} BranchParts(node: Node, index: nat, t: Tables)
    requires node.Branch? && Represents(node, index, t)
    ensures t.shapes[index].shapeType == node.shapeType
    ensures |Children(index, t.shapes)| == |node.children|
    ensures forall i :: 0 <= i < |node.children| ==> Represents(node.children[i], Children(index, t.shapes)[i], t)
  {}

  lemma {:induction false} ReadMultiPoint(parts: seq<Coord>, index: nat, t: Tables)
    requires Countable(t.shapes) && Rooted(index, t.shapes) && t.shapes[index].shapeType == SHAPE_MULTIPOINT
    requires |Children(index, t.shapes)| == |parts|
    requires forall i :: 0 <= i < |parts| ==> Represents(PointNode(parts[i]), Children(index, t.shapes)[i], t)
    ensures ShapeAt(index, t) == Ok(MultiPoint(parts))
  {
    ReadPoints(parts, Children(index, t.shapes), t);
  }

  lemma {:induction false} ReadMultiLine(parts: seq<seq<Coord>>, index: nat, t: Tables)
    requires Countable(t.shapes) && Rooted(index, t.shapes) && t.shapes[index].shapeType == SHAPE_MULTILINESTRING
    requires |Children(index, t.shapes)| == |parts|
    requires forall i :: 0 <= i < |parts| ==> Represents(LineNode(parts[i]), Children(index, t.shapes)[i], t)
    ensures ShapeAt(index, t) == Ok(MultiLineString(parts))
  {
    ReadLines(parts, Children(index, t.shapes), t);
  }

  lemma {:induction false} ReadMultiPolygon(parts: seq<Poly>, index: nat, t: Tables)
    requires Countable(t.shapes) && Rooted(index, t.shapes) && t.shapes[index].shapeType == SHAPE_MULTIPOLYGON
    requires |Children(index, t.shapes)| == |parts|
    requires forall i :: 0 <= i < |parts| ==> Represents(PolygonNode(parts[i]), Children(index, t.shapes)[i], t)
    ensures ShapeAt(index, t) == Ok(MultiPolygon(PolysBack(parts)))
  {
    ReadPolygons(parts, Children(index, t.shapes), t);
    MultiPolygonAt(index, PolysBack(parts), t);
  }

  lemma {:induction false} MultiPolygonAt(index: nat, polygons: seq<Poly>, t: Tables)
    requires Countable(t.shapes) && Rooted(index, t.shapes) && t.shapes[index].shapeType == SHAPE_MULTIPOLYGON
    requires PolygonsOf(Children(index, t.shapes), t) == Ok(polygons)
    ensures ShapeAt(index, t) == Ok(MultiPolygon(polygons))
  {}

  lemma {:induction false} CollectionAt(index: nat, members: seq<Geometry>, t: Tables)
    requires Countable(t.shapes) && Rooted(index, t.shapes)
    requires t.shapes[index].shapeType == SHAPE_GEOMETRYCOLLECTION
    requires ShapesAt(index, Children(index, t.shapes), t) == Ok(members)
    ensures ShapeAt(index, t) == Ok(GeometryCollection(members))
  {}

  lemma {:induction false} ReadLeaf(g: Geometry, index: nat, t: Tables)
    requires Countable(t.shapes) && Rooted(index, t.shapes)
    requires Plan(g).Leaf? && Represents(Plan(g), index, t)
    ensures ShapeAt(index, t) == Ok(ReadBack(g))
  {
    match g
    case Point(at) => ReadPoint(at, index, t);
    case Line(start, end) => ReadLine([start, end], index, t);
    case LineString(line) => ReadLine(line, index, t);
    case Polygon(p) => ReadPolygon(p, index, t);
    case Rect(outline) => ReadPolygon(Poly(outline, []), index, t);
    case Triangle(outline) => ReadPolygon(Poly(outline, []), index, t);
  }

  /** A shape that spells out the plan of `g` is read as `ReadBack(g)`. */
  lemma {:induction false} ShapeReadBack(g: Geometry, index: nat, t: Tables)
    requires Countable(t.shapes) && Rooted(index, t.shapes)
    requires Represents(Plan(g), index, t)
    ensures ShapeAt(index, t) == Ok(ReadBack(g))
    decreases g, 2
  {
    if Plan(g).Leaf? {
      ReadLeaf(g, index, t);
    } else {
      match g
      case MultiPoint(ps) => MultiPointReadBack(ps, index, t);
      case MultiLineString(ls) => MultiLineReadBack(ls, index, t);
      case MultiPolygon(ps) => MultiPolygonReadBack(ps, index, t);
      case GeometryCollection(ms) =>
        BranchParts(Plan(g), index, t);
        ReadCollection(ms, index, t);
    }
  }

  lemma {:induction false} MultiPointReadBack(ps: seq<Coord>, index: nat, t: Tables)
    requires Countable(t.shapes) && Rooted(index, t.shapes) && Represents(Plan(MultiPoint(ps)), index, t)
    ensures ShapeAt(index, t) == Ok(ReadBack(MultiPoint(ps)))
  {
    BranchParts(Plan(MultiPoint(ps)), index, t);
    ReadMultiPoint(ps, index, t);
  }

  lemma {:induction false} MultiLineReadBack(ls: seq<seq<Coord>>, index: nat, t: Tables)
    requires Countable(t.shapes) && Rooted(index, t.shapes) && Represents(Plan(MultiLineString(ls)), index, t)
    ensures ShapeAt(index, t) == Ok(ReadBack(MultiLineString(ls)))
  {
    BranchParts(Plan(MultiLineString(ls)), index, t);
    ReadMultiLine(ls, index, t);
  }

  lemma {:induction false} MultiPolygonReadBack(ps: seq<Poly>, index: nat, t: Tables)
    requires Countable(t.shapes) && Rooted(index, t.shapes) && Represents(Plan(MultiPolygon(ps)), index, t)
    ensures ShapeAt(index, t) == Ok(ReadBack(MultiPolygon(ps)))
  {
    BranchParts(Plan(MultiPolygon(ps)), index, t);
    ReadMultiPolygon(ps, index, t);
  }

  lemma {:induction false} ReadCollection(ms: seq<Geometry>, index: nat, t: Tables)
    requires Countable(t.shapes) && Rooted(index, t.shapes)
    requires t.shapes[index].shapeType == SHAPE_GEOMETRYCOLLECTION
    requires |Children(index, t.shapes)| == |ms|
    requires forall i :: 0 <= i < |ms| ==> Represents(Plan(ms[i]), Children(index, t.shapes)[i], t)
    ensures ShapeAt(index, t) == Ok(GeometryCollection(MembersBack(ms)))
    decreases ms, 2
  {
    ShapesReadBack(ms, index, Children(index, t.shapes), t);
    CollectionAt(index, MembersBack(ms), t);
  }

  lemma {:induction false} ShapesReadBack(ms: seq<Geometry>, index: nat, kids: seq<nat>, t: Tables)
    requires Countable(t.shapes) && Rooted(index, t.shapes)
    requires |ms| == |kids|
    requires forall i :: 0 <= i < |kids| ==>
                           kids[i] < |t.shapes| && t.shapes[kids[i]].parent == AsI32(index)
    requires forall i :: 0 <= i < |ms| ==> Represents(Plan(ms[i]), kids[i], t)
    ensures ShapesAt(index, kids, t) == Ok(MembersBack(ms))
    decreases ms, 1
  {
    if kids != [] {
      ChildPath(index, kids[0], t.shapes);
      ShapeReadBack(ms[0], kids[0], t);
      ShapesReadBack(ms[1..], index, kids[1..], t);
    }
  }

  // ----- Main results on tables

  /** Reading a geometry's own tables gives `ReadBack` of it, whatever its
      nesting and whatever its rings. */
  lemma {:induction false} AssembleFlatten(g: Geometry)
    requires Fits(Flatten(g))
    ensures Assemble(Flatten(g)) == Ok(ReadBack(g))
  {
    var t := Flatten(g);
    PlanGood(g);
    PushNodeCorrect(Plan(g), -1, EMPTY_TABLES);
    TopIsRooted(t.shapes, 0);
    ShapeReadBack(g, 0, t);
  }

  /** The layout keeps the promise for exactly the geometries in which no empty
      exterior surrounds a non-empty hole. */
  lemma {:induction false} ReadBackIsNorm(g: Geometry)
    ensures ReadBack(g) == Norm(g) <==> !Hollow(g)
  {
    match g
    case Polygon(p) => PolyBackIsNorm(p);
    case MultiPolygon(ps) =>
      var back := PolysBack(ps);
      var norm := PolysNorm(ps);
      forall i | 0 <= i < |ps| ensures back[i] == norm[i] <==> !HollowPoly(ps[i]) {
        PolyBackIsNorm(ps[i]);
      }
    case GeometryCollection(ms) =>
      var back := MembersBack(ms);
      var norm := MembersNorm(ms);
      forall i | 0 <= i < |ms| ensures back[i] == norm[i] <==> !Hollow(ms[i]) {
        ReadBackIsNorm(ms[i]);
      }
    case _ =>
  }

  lemma {:induction false} PolyBackIsNorm(p: Poly)
    ensures PolyBack(p) == PolyNorm(p) <==> !HollowPoly(p)
  {
    NonEmptyRings(p.interiors);
  }

  /** The round trip is the identity for exactly the canonical geometries. */
  lemma {:induction false} ReadBackIsIdentity(g: Geometry)
    ensures ReadBack(g) == g <==> Canonical(g)
  {
    match g
    case Polygon(p) => PolyBackIsIdentity(p);
    case MultiPolygon(ps) =>
      var back := PolysBack(ps);
      forall i | 0 <= i < |ps| ensures back[i] == ps[i] <==> CanonicalPoly(ps[i]) {
        PolyBackIsIdentity(ps[i]);
      }
    case GeometryCollection(ms) =>
      var back := MembersBack(ms);
      forall i | 0 <= i < |ms| ensures back[i] == ms[i] <==> Canonical(ms[i]) {
        ReadBackIsIdentity(ms[i]);
      }
    case _ =>
  }

  lemma {:induction false} PolyBackIsIdentity(p: Poly)
    ensures PolyBack(p) == p <==> CanonicalPoly(p)
  {
    var holes := NonEmpty(p.interiors);
    NonEmptyRings(p.interiors);
    if |holes| == |p.interiors| {
      NonEmptyAll(p.interiors);
    }
  }

  // ----- Reading back twice

  /** A ring that is closed once it has been closed: its first place is one, not
      a NaN. */
  predicate Steady(ring: Ring) {
    ring == [] || SamePlace(ring[0], ring[0])
  }

  predicate AllSteady(rings: seq<Ring>) {
    forall i :: 0 <= i < |rings| ==> Steady(rings[i])
  }

  predicate SteadyPoly(p: Poly) {
    Steady(p.exterior) && AllSteady(p.interiors)
  }

  /** No ring of the geometry starts at a NaN. */
  predicate SteadyRings(g: Geometry) {
    match g
    case Polygon(p) => SteadyPoly(p)
    case MultiPolygon(ps) => forall i :: 0 <= i < |ps| ==> SteadyPoly(ps[i])
    case GeometryCollection(ms) => forall i :: 0 <= i < |ms| ==> SteadyRings(ms[i])
    case Rect(outline) => Steady(outline)
    case Triangle(outline) => Steady(outline)
    case _ => true
  }

  lemma {:induction false} CloseCloses(ring: Ring)
    ensures Closed(Close(ring)) <==> Steady(ring)
    ensures Close(ring) == [] <==> ring == []
  {}

  lemma {:induction false} SteadyNonEmpty(rings: seq<Ring>)
    ensures AllSteady(rings) <==> AllSteady(NonEmpty(rings))
  {
    var kept := NonEmpty(rings);
    if AllSteady(rings) {
      forall i | 0 <= i < |kept| ensures Steady(kept[i]) { assert kept[i] in rings; }
    }
    if AllSteady(kept) {
      forall i | 0 <= i < |rings| ensures Steady(rings[i]) {
        if rings[i] != [] {
          assert rings[i] in kept;
          var j :| 0 <= j < |kept| && kept[j] == rings[i];
        }
      }
    }
  }

  lemma {:induction false} PolyBackCanonical(p: Poly)
    ensures CanonicalPoly(PolyBack(p)) <==> SteadyPoly(p)
  {
    var holes, back := NonEmpty(p.interiors), PolyBack(p);
    NonEmptyRings(p.interiors);
    SteadyNonEmpty(p.interiors);
    CloseCloses(ExteriorBack(p));
    assert |back.interiors| == |holes|;
    forall i | 0 <= i < |holes|
      ensures back.interiors[i] != [] && (Closed(back.interiors[i]) <==> Steady(holes[i]))
    {
      CloseCloses(holes[i]);
    }
  }

  /** What comes back of a geometry is canonical exactly when none of its rings
      starts at a NaN; `Polygon::new` appends to such a ring each time. */
  lemma {:induction false} ReadBackIsCanonical(g: Geometry)
    ensures Canonical(ReadBack(g)) <==> SteadyRings(g)
  {
    match g
    case Polygon(p) => PolyBackCanonical(p);
    case MultiPolygon(ps) =>
      var back := PolysBack(ps);
      forall i | 0 <= i < |ps| ensures CanonicalPoly(back[i]) <==> SteadyPoly(ps[i]) {
        PolyBackCanonical(ps[i]);
      }
    case GeometryCollection(ms) =>
      forall i | 0 <= i < |ms| ensures Canonical(MembersBack(ms)[i]) <==> SteadyRings(ms[i]) {
        ReadBackIsCanonical(ms[i]);
      }
    case Rect(outline) => PolyBackCanonical(Poly(outline, []));
    case Triangle(outline) => PolyBackCanonical(Poly(outline, []));
    case _ =>
  }

  /** A second round trip changes nothing more, with the same exception. */
  lemma {:induction false} ReadBackTwice(g: Geometry)
    ensures ReadBack(ReadBack(g)) == ReadBack(g) <==> SteadyRings(g)
  {
    ReadBackIsCanonical(g);
    ReadBackIsIdentity(ReadBack(g));
  }

  lemma {:induction false} NonEmptyAll(rings: seq<Ring>)
    requires |NonEmpty(rings)| == |rings|
    ensures NonEmpty(rings) == rings
  {
    if rings != [] {
      NonEmptyRings(rings[1..]);
      NonEmptyAll(rings[1..]);
      assert rings == [rings[0]] + rings[1..];
    }
  }
}
