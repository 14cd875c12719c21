/** The values of the spatial codec: coordinates, geometries and the three
    tables a version 1 payload is made of. */
module GeoTypes {
  import opened Common

  type i32 = x: int | -0x8000_0000 <= x < 0x8000_0000

  /** An `f64` as its eight little-endian bytes. */
  type F64 = bits: seq<byte> | |bits| == 8 witness [0, 0, 0, 0, 0, 0, 0, 0]

  datatype Coord = Coord(x: F64, y: F64)

  predicate IsNan(f: F64) {
    && f[7] % 0x80 == 0x7F
    && f[6] / 0x10 == 0xF
    && (f[6] % 0x10 != 0 || f[5] != 0 || f[4] != 0 || f[3] != 0 || f[2] != 0 || f[1] != 0 || f[0] != 0)
  }

  predicate IsZero(f: F64) {
    f[7] % 0x80 == 0 && f[6] == 0 && f[5] == 0 && f[4] == 0 && f[3] == 0 && f[2] == 0 && f[1] == 0 && f[0] == 0
  }

  /** IEEE 754 equality: a NaN equals nothing, and the two zeros are equal. */
  predicate SameNumber(a: F64, b: F64) {
    !IsNan(a) && !IsNan(b) && (a == b || (IsZero(a) && IsZero(b)))
  }

  predicate SamePlace(a: Coord, b: Coord) {
    SameNumber(a.x, b.x) && SameNumber(a.y, b.y)
  }

  type Ring = seq<Coord>

  datatype Poly = Poly(exterior: Ring, interiors: seq<Ring>)

  /** `geo_types::Geometry<f64>`. A rectangle or a triangle is given by the ring
      that its `to_polygon` returns. */
  datatype Geometry =
    | Point(at: Coord)
    | Line(start: Coord, end: Coord)
    | LineString(line: seq<Coord>)
    | Polygon(polygon: Poly)
    | MultiPoint(places: seq<Coord>)
    | MultiLineString(lines: seq<seq<Coord>>)
    | MultiPolygon(polygons: seq<Poly>)
    | GeometryCollection(members: seq<Geometry>)
    | Rect(rectOutline: Ring)
    | Triangle(triangleOutline: Ring)

  datatype Figure = Figure(attribute: byte, pointOffset: u32)

  datatype Shape = Shape(parent: i32, figureOffset: i32, shapeType: byte)

  datatype Tables = Tables(points: seq<Coord>, figures: seq<Figure>, shapes: seq<Shape>)

  const FIGURE_INTERIOR_RING: byte := 0
  const FIGURE_STROKE: byte := 1
  const FIGURE_EXTERIOR_RING: byte := 2

  const SHAPE_POINT: byte := 1
  const SHAPE_LINESTRING: byte := 2
  const SHAPE_POLYGON: byte := 3
  const SHAPE_MULTIPOINT: byte := 4
  const SHAPE_MULTILINESTRING: byte := 5
  const SHAPE_MULTIPOLYGON: byte := 6
  const SHAPE_GEOMETRYCOLLECTION: byte := 7
  const SHAPE_CIRCULARSTRING: byte := 8
  const SHAPE_FULLGLOBE: byte := 11

  datatype DecodeError =
    | Truncated
    | UnsupportedVersion(version: byte)
    | HasZOrM
    | NoTopLevelShape
    | FigureOutsideTable
    | PointRangeOutsideTable
    | EmptyPoint
    | CurvedShape(shapeType: byte)
    | UnknownShape(shapeType: byte)

  type Decoded<+T> = Result<T, DecodeError>

  /** `n as u32` on a `usize`. */
  function AsU32(n: nat): u32 {
    n % 0x1_0000_0000
  }

  /** `n as i32` on a `usize`. */
  function AsI32(n: nat): i32 {
    var low := n % 0x1_0000_0000;
    if low < 0x8000_0000 then low else low - 0x1_0000_0000
  }

  /** What `Polygon::new` does to every ring it is given. */
  function Close(ring: Ring): Ring {
    if |ring| == 0 || SamePlace(ring[0], ring[|ring| - 1]) then ring else ring + [ring[0]]
  }

  function CloseAll(rings: seq<Ring>): seq<Ring> {
    seq(|rings|, i requires 0 <= i < |rings| => Close(rings[i]))
  }

  function NewPolygon(exterior: Ring, interiors: seq<Ring>): Poly {
    Poly(Close(exterior), CloseAll(interiors))
  }
}
